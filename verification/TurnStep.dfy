/** A host's sending turn keeps the invariant. */
module TurnStep {
  import opened Common
  import opened Frames
  import opened HostModel
  import opened Messages
  import opened SenderPasses
  import opened SendingTurn
  import opened Network
  import opened Invariant
  import opened Preservation
  import Flow

  /** What lies beyond sender i on its way to d. */
  function Beyond(sys: System, i: nat, d: nat): Outside
    requires i < |sys.hosts| && d < |sys.hosts| == |sys.ingress| && i < |sys.hosts[d].recv|
  {
    Outside(sys.hosts[d].recv[i],
            Sel(sys.hosts[d].incoming, i, d, false) + Sel(sys.ingress[d], i, d, false),
            Sel(sys.ingress[i], d, i, true) + Sel(sys.hosts[d].outgoing, d, i, true))
  }

  lemma SenderHolds(cfg: Config, h: HostState, i: int, done: set<nat>)
    requires HostOk(cfg, h, i, Senders(done))
    ensures WellFormed(cfg, h) && Holds(cfg, h) && OnlyAcks(cfg, h)
    ensures |h.send| == |h.recv| == cfg.hosts && h.id == i
  {
    hide FrameValid;
    hide AwaitingAck;
  }

  lemma TurnShape(cfg: Config, h: HostState, i: int, done: set<nat>)
    requires HostOk(cfg, h, i, Senders(done)) && i >= 0
    requires var r := Turn(cfg, h);
             && WellFormed(cfg, r) && Holds(cfg, r) && |r.send| == |h.send|
             && r.id == h.id && r.recv == h.recv && r.incoming == [] && r.cmds == []
             && r.active == (AwaitingAck(r) || r.buffered != [])
    ensures HostOk(cfg, Turn(cfg, h), i, Senders(done + {i as nat}))
  {
    hide FrameValid;
    hide AwaitingAck;
    hide Turn;
  }

  lemma OtherDone(cfg: Config, h: HostState, k: int, done: set<nat>, i: nat)
    requires HostOk(cfg, h, k, Senders(done)) && k != i
    ensures HostOk(cfg, h, k, Senders(done + {i}))
  {
    hide FrameValid;
    hide AwaitingAck;
    hide Holds;
  }

  lemma SideFromFlow(cfg: Config, sys: System, i: nat, d: nat, fl: Flow.Flow, taken: seq<CString>, sent: seq<CString>)
    requires Sized(cfg, sys) && i < cfg.hosts && d < cfg.hosts && FlowAt(cfg, sys, i, d, fl, taken, sent)
    ensures SideOk(cfg, sys.hosts[i], d, fl, Beyond(sys, i, d)) && Armed(sys.hosts[i], d)
    ensures CarriesAll(fl.gen, taken) && sent == taken + Pending(sys.hosts[i].cmds, d)
    ensures Reassembled(fl, sys.hosts[d], i)
  {
    hide FrameValid;
    hide Sel;
    hide CarriesAll;
    hide Drain;
    hide Texts;
    hide Pending;
    hide Flow.FlowOk;
    var inc, q, out :=
      Sel(sys.hosts[i].incoming, d, i, true), Sel(sys.ingress[i], d, i, true), Sel(sys.hosts[d].outgoing, d, i, true);
    assert (inc + q) + out == inc + (q + out);
  }

  lemma FlowFromSide(cfg: Config, sys: System, sys': System, i: nat, d: nat, fl: Flow.Flow, taken: seq<CString>,
                     fl': Flow.Flow, taken': seq<CString>)
    requires Sized(cfg, sys) && Sized(cfg, sys') && i < cfg.hosts && d < cfg.hosts && d != i
    requires sys'.ingress == sys.ingress && sys'.hosts == sys.hosts[i := sys'.hosts[i]]
    requires SideOk(cfg, sys'.hosts[i], d, fl', Beyond(sys, i, d)) && Armed(sys'.hosts[i], d)
    requires CarriesAll(fl'.gen, taken') && sys'.hosts[i].cmds == []
    requires Reassembled(fl, sys.hosts[d], i) && fl'.next == fl.next && fl.gen <= fl'.gen
    ensures FlowAt(cfg, sys', i, d, fl', taken', taken')
  {
    hide FrameValid;
    hide Sel;
    hide CarriesAll;
    hide Drain;
    hide Texts;
    hide Flow.FlowOk;
    var inc, q, out :=
      Sel(sys'.hosts[i].incoming, d, i, true), Sel(sys.ingress[i], d, i, true), Sel(sys.hosts[d].outgoing, d, i, true);
    assert (inc + q) + out == inc + (q + out);
    assert fl'.gen[..fl'.next] == fl.gen[..fl.next];
    assert taken' + [] == taken';
  }

  lemma SameFlow(cfg: Config, sys: System, s: nat, d: nat, sent: seq<CString>)
    returns (fl: Flow.Flow, taken: seq<CString>)
    requires Sized(cfg, sys) && s < cfg.hosts && d < cfg.hosts && HasFlow(cfg, sys, s, d, sent)
    ensures FlowAt(cfg, sys, s, d, fl, taken, sent)
  {
    hide FlowAt;
    fl, taken :| FlowAt(cfg, sys, s, d, fl, taken, sent);
  }

  /** The flows a host sends on. */
  lemma TurnOut(cfg: Config, sys: System, i: nat, done: set<nat>, d: nat, sent: seq<CString>)
    returns (fl': Flow.Flow, taken': seq<CString>)
    requires ValidConfig(cfg) && HostsOk(cfg, sys) && sys.phase == Senders(done)
    requires Sized(cfg, sys) && i < cfg.hosts && d < cfg.hosts && d != i && HasFlow(cfg, sys, i, d, sent)
    ensures WellFormed(cfg, sys.hosts[i]) && sys.hosts[i].id == i
    ensures var h, r := sys.hosts[i], Turn(cfg, sys.hosts[i]);
            && WellFormed(cfg, r) && Holds(cfg, r) && |r.send| == |h.send|
            && r.id == h.id && r.recv == h.recv && r.printed == h.printed && r.incoming == [] && r.cmds == []
            && r.active == (AwaitingAck(r) || r.buffered != [])
    ensures var sys' := sys.(hosts := sys.hosts[i := Turn(cfg, sys.hosts[i])], phase := Senders(done + {i}));
            Sized(cfg, sys') && FlowAt(cfg, sys', i, d, fl', taken', sent)
  {
    hide *;
    HostsOkAt(cfg, sys, i);
    HostsOkAt(cfg, sys, d);
    var h := sys.hosts[i];
    SenderHolds(cfg, h, i, done);
    var fl, taken := SameFlow(cfg, sys, i, d, sent);
    SideFromFlow(cfg, sys, i, d, fl, taken, sent);
    fl' := TurnSide(cfg, h, d, fl, Beyond(sys, i, d), taken);
    taken' := taken + Pending(h.cmds, d);
    var r := Turn(cfg, h);
    TurnWellFormed(cfg, h);
    SizedUpdate(cfg, sys, i, r, Senders(done + {i}));
    FlowFromSide(cfg, sys, sys.(hosts := sys.hosts[i := r], phase := Senders(done + {i})), i, d, fl, taken, fl',
                 taken');
  }

  lemma SizedUpdate(cfg: Config, sys: System, i: nat, r: HostState, phase: Phase)
    requires Sized(cfg, sys) && i < cfg.hosts && |sys.hosts| == cfg.hosts
    requires |r.send| == |r.recv| == cfg.hosts && r.id == i
    ensures Sized(cfg, sys.(hosts := sys.hosts[i := r], phase := phase))
  {}

  lemma {:induction false} NoDataAmongAcks(cfg: Config, h: HostState, q: seq<Frame>, a: int)
    requires OnlyAcks(cfg, h) && forall f :: f in q ==> f in h.incoming
    ensures Sel(q, a, h.id, false) == []
  {
    hide FrameValid;
    if q != [] {
      assert q[0] in h.incoming;
      NoDataAmongAcks(cfg, h, q[1..], a);
    }
  }

  lemma {:induction false} NoAcksAmongData(cfg: Config, h: HostState, q: seq<Frame>, b: int)
    requires Holds(cfg, h) && forall f :: f in q ==> f in h.outgoing
    ensures Sel(q, h.id, b, true) == []
  {
    hide FrameValid;
    if q != [] {
      assert q[0] in h.outgoing;
      NoAcksAmongData(cfg, h, q[1..], b);
    }
  }

  /** The flows a host receives on: its turn neither adds to nor takes from them. */
  lemma TurnIn(cfg: Config, sys: System, sys': System, i: nat, s: nat, sent: seq<CString>)
    requires Sized(cfg, sys) && Sized(cfg, sys') && i < cfg.hosts && s < cfg.hosts && s != i
    requires sys'.ingress == sys.ingress && sys'.hosts == sys.hosts[i := sys'.hosts[i]]
    requires Holds(cfg, sys.hosts[i]) && Holds(cfg, sys'.hosts[i]) && OnlyAcks(cfg, sys.hosts[i])
    requires sys'.hosts[i].incoming == [] && sys'.hosts[i].id == i
    requires sys'.hosts[i].recv == sys.hosts[i].recv && sys'.hosts[i].printed == sys.hosts[i].printed
    requires HasFlow(cfg, sys, s, i, sent)
    ensures HasFlow(cfg, sys', s, i, sent)
  {
    hide FrameValid;
    hide Sel;
    hide Holds;
    hide OnlyAcks;
    hide HasFlow;
    hide Thinned;
    NoDataAmongAcks(cfg, sys.hosts[i], sys.hosts[i].incoming, s);
    NoAcksAmongData(cfg, sys.hosts[i], sys.hosts[i].outgoing, s);
    NoAcksAmongData(cfg, sys'.hosts[i], sys'.hosts[i].outgoing, s);
    SelNone(s, i, false);
    ThinnedSelf(Channel(sys, s, i, false));
    ThinnedSelf(Channel(sys, i, s, true));
    FlowThinned(cfg, sys, sys', s, i, sent);
  }

  /** Flows between other hosts. */
  lemma TurnElsewhere(cfg: Config, sys: System, sys': System, i: nat, s: nat, d: nat, sent: seq<CString>)
    requires Sized(cfg, sys) && Sized(cfg, sys') && i < cfg.hosts && s < cfg.hosts && d < cfg.hosts && s != i && d != i
    requires sys'.ingress == sys.ingress && sys'.hosts == sys.hosts[i := sys'.hosts[i]]
    requires HasFlow(cfg, sys, s, d, sent)
    ensures HasFlow(cfg, sys', s, d, sent)
  {
    hide FrameValid;
    hide Sel;
    hide HasFlow;
    hide Thinned;
    ThinnedSelf(Channel(sys, s, d, false));
    ThinnedSelf(Channel(sys, d, s, true));
    FlowThinned(cfg, sys, sys', s, d, sent);
  }

  lemma FlowExists(cfg: Config, sys: System, s: nat, d: nat, fl: Flow.Flow, taken: seq<CString>, sent: seq<CString>)
    requires Sized(cfg, sys) && s < cfg.hosts && d < cfg.hosts && FlowAt(cfg, sys, s, d, fl, taken, sent)
    ensures HasFlow(cfg, sys, s, d, sent)
  {
    hide FlowAt;
  }

  lemma InvAt(cfg: Config, sys: System, trace: seq<Event>, s: nat, d: nat)
    requires Inv(cfg, sys, trace) && s < cfg.hosts && d < cfg.hosts && s != d
    ensures HasFlow(cfg, sys, s, d, Commanded(trace, s, d))
  {
    hide HasFlow;
    hide HostsOk;
  }

  lemma TurnHosts(cfg: Config, sys: System, i: nat, done: set<nat>, r: HostState)
    requires HostsOk(cfg, sys) && sys.phase == Senders(done) && i < cfg.hosts
    requires HostOk(cfg, r, i, Senders(done + {i})) && |r.send| == |r.recv| == cfg.hosts && r.id == i
    ensures HostsOk(cfg, sys.(hosts := sys.hosts[i := r], phase := Senders(done + {i})))
  {
    hide HostOk;
    hide QueueOk;
    var sys' := sys.(hosts := sys.hosts[i := r], phase := Senders(done + {i}));
    forall k | 0 <= k < cfg.hosts ensures HostOk(cfg, sys'.hosts[k], k, sys'.phase) {
      if k != i {
        OtherDone(cfg, sys.hosts[k], k, done, i);
      }
    }
  }

  lemma ConfigHosts(cfg: Config)
    requires ValidConfig(cfg)
    ensures cfg.hosts >= 2
  {}

  lemma InvIntro(cfg: Config, sys: System, trace: seq<Event>)
    requires HostsOk(cfg, sys) && Sized(cfg, sys)
    requires forall s, d :: 0 <= s < cfg.hosts && 0 <= d < cfg.hosts && s != d ==>
               HasFlow(cfg, sys, s, d, Commanded(trace, s, d))
    ensures Inv(cfg, sys, trace)
  {}

  lemma ApplyTurn(cfg: Config, sys: System, e: Event)
    requires Shaped(cfg, sys) && Enabled(cfg, sys, e) && e.TakeTurn?
    ensures sys.phase.Senders? && e.host < |sys.hosts| == cfg.hosts && WellFormed(cfg, sys.hosts[e.host])
    ensures Apply(cfg, sys, e) == sys.(hosts := sys.hosts[e.host := Turn(cfg, sys.hosts[e.host])],
                                       phase := Senders(sys.phase.done + {e.host}))
  {
    hide Turn;
    hide FrameValid;
  }

  lemma KeepTurn(cfg: Config, sys: System, trace: seq<Event>, e: Event)
    requires ValidConfig(cfg) && Inv(cfg, sys, trace) && Shaped(cfg, sys) && Enabled(cfg, sys, e) && e.TakeTurn?
    ensures Inv(cfg, Apply(cfg, sys, e), trace + [e])
  {
    hide *;
    ApplyTurn(cfg, sys, e);
    ConfigHosts(cfg);
    SizedInv(cfg, sys, trace);
    var i, done := e.host, sys.phase.done;
    var h, r := sys.hosts[i], Turn(cfg, sys.hosts[i]);
    var sys' := Apply(cfg, sys, e);
    HostsOkAt(cfg, sys, i);
    SenderHolds(cfg, h, i, done);
    var d0 := if i == 0 then 1 else 0;
    InvAt(cfg, sys, trace, i, d0);
    var fl0, taken0 := TurnOut(cfg, sys, i, done, d0, Commanded(trace, i, d0));
    TurnShape(cfg, h, i, done);
    TurnHosts(cfg, sys, i, done, r);
    forall s, d | 0 <= s < cfg.hosts && 0 <= d < cfg.hosts && s != d
      ensures HasFlow(cfg, sys', s, d, Commanded(trace + [e], s, d))
    {
      CommandedSame(trace, e, s, d);
      InvAt(cfg, sys, trace, s, d);
      var sent := Commanded(trace, s, d);
      if s == i {
        var fl', taken' := TurnOut(cfg, sys, i, done, d, sent);
        FlowExists(cfg, sys', i, d, fl', taken', sent);
      } else if d == i {
        TurnIn(cfg, sys, sys', i, s, sent);
      } else {
        TurnElsewhere(cfg, sys, sys', i, s, d, sent);
      }
    }
    InvIntro(cfg, sys', trace + [e]);
  }
}
