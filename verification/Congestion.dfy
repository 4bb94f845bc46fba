/** Congestion control over any sequence of ACKs and timeouts (compare sections 3.1 and 3.2 of RFC 5681). */
module Congestion {
  import opened Common
  import opened SeqNum
  import opened HostModel

  ghost predicate CcInv(cc: CongestionControl) {
    && cc.cwnd >= 1.0 && cc.ssthresh >= 0.5
    && (cc.state == SlowStart ==> cc.cwnd <= MaxReal(1.0, cc.ssthresh))
    && (cc.state == AIMD ==> cc.cwnd >= cc.ssthresh)
    && (cc.state == FastRecovery ==> cc.ssthresh >= 2.0 && cc.cwnd >= cc.ssthresh + 3.0)
  }

  lemma AckKeepsCc(p: Sending, seqNum: uint8)
    requires CcInv(p.cc)
    ensures CcInv(CountAck(p, seqNum).cc) && CcInv(OnAckCC(CountAck(p, seqNum).cc))
  {
    hide Wrap;
    hide SeqNumDiff;
    var cc := CountAck(p, seqNum).cc;
    assert 1.0 / cc.cwnd > 0.0;
  }

  lemma TimeoutKeepsCc(p: Sending, curr: int)
    requires CcInv(p.cc)
    ensures CcInv(OnTimeout(p, curr).cc)
  {}

  /** The per-round budget is never zero. */
  lemma BudgetPositive(cc: CongestionControl)
    requires CcInv(cc)
    ensures cc.cwnd.Floor >= 1
  {}

  /** Slots whose timer has stopped come last in the window. */
  ghost predicate NullSuffix(window: seq<Slot>) {
    forall i, j :: 0 <= i < j < |window| && window[i].timeout.None? ==> window[j].timeout.None?
  }

  ghost predicate AllRunning(window: seq<Slot>) {
    forall i :: 0 <= i < |window| ==> window[i].timeout.Some?
  }

  ghost predicate Disciplined(p: Sending) {
    NullSuffix(p.window) && CcInv(p.cc)
  }
}
