/** Fragmentation and reassembly: what handle_input_cmds cuts up, reassemble_message puts together. */
module Messages {
  import opened Common
  import opened HostModel
  import Crc8
  import Frames

  // ---------- strncpy on text without NULs ----------

  lemma {:induction false} CopyText(s: seq<Byte>, n: nat)
    requires n <= |s| && NUL !in s[..n]
    ensures StrNCpy(s, n) == s[..n]
  {
    if n > 0 {
      assert s[0] in s[..n];
      assert s[..n] == [s[0]] + s[1..][..n - 1];
      CopyText(s[1..], n - 1);
    }
  }

  /** Copying a NUL-free run followed by one NUL copies it as it is. */
  lemma {:induction false} CopyTerminated(s: seq<Byte>, n: nat)
    requires 0 < n <= |s| && NUL !in s[..n - 1] && s[n - 1] == NUL
    ensures StrNCpy(s, n) == s[..n]
  {
    if n == 1 {
    } else {
      assert s[0] in s[..n - 1];
      assert s[..n - 1] == [s[0]] + s[1..][..n - 2];
      CopyTerminated(s[1..], n - 1);
      assert s[..n] == [s[0]] + s[1..][..n - 1];
    }
  }

  /** Cut anywhere, a stored message copies faithfully. */
  lemma {:induction false} CopyStored(message: CString, start: nat, end: nat)
    requires start < end <= |Stored(message)|
    ensures StrNCpy(Stored(message)[start..], end - start) == Stored(message)[start..end]
    ensures StrNCpy(Stored(message)[start..end], end - start) == Stored(message)[start..end]
  {
    hide StrNCpy;
    var text := Stored(message);
    var n := end - start;
    CopyCut(message, text[start..], start, n);
    CopyCut(message, text[start..end], start, n);
    assert text[start..][..n] == text[start..end] && text[start..end][..n] == text[start..end];
  }

  /** Copying n bytes from text that agrees with the stored message that far. */
  lemma CopyCut(message: CString, s: seq<Byte>, start: nat, n: nat)
    requires 0 < n <= |s| && start + n <= |Stored(message)| && s[..n] == Stored(message)[start..start + n]
    ensures StrNCpy(s, n) == s[..n]
  {
    hide StrNCpy;
    var text := Stored(message);
    if start + n == |text| {
      assert s[..n - 1] == s[..n][..n - 1] && text[start..start + n][..n - 1] == message[start..];
      assert s[n - 1] == s[..n][n - 1] == NUL;
      CopyTerminated(s, n);
    } else {
      assert text[start..start + n] == message[start..start + n];
      CopyText(s, n);
    }
  }

  lemma {:induction false} CopyPrefix(s: seq<Byte>, n: nat)
    requires n <= |s|
    ensures StrNCpy(s, n) == StrNCpy(s[..n], n)
  {
    if n > 0 && s[0] != NUL {
      assert s[..n][1..] == s[1..][..n - 1];
      CopyPrefix(s[1..], n - 1);
    }
  }

  lemma {:induction false} PrintedStored(message: CString)
    ensures Printed(Stored(message)) == message
  {
    if message != [] {
      assert message[0] in message;
      assert Stored(message)[1..] == Stored(message[1..]);
      PrintedStored(message[1..]);
    }
  }

  lemma {:induction false} PrintedText(s: seq<Byte>)
    requires NUL !in s
    ensures Printed(s) == s
  {
    if s != [] {
      PrintedText(s[1..]);
    }
  }

  // ---------- fragments ----------

  function EndOf(message: CString, start: nat): (end: nat)
    ensures start < |Stored(message)| ==> start < end <= |Stored(message)|
  {
    Min(start + PAYLOAD_SIZE, |Stored(message)|)
  }

  /** `frames` are the fragments of `message` from byte `start` on, whatever garbage fills the unused payload. */
  ghost predicate Carries(frames: seq<Frame>, message: CString, start: nat)
    decreases |frames|
  {
    var text := Stored(message);
    if start >= |text| then frames == []
    else
      var end := EndOf(message, start);
      && frames != []
      && frames[0].length == end - start
      && frames[0].remaining == (|text| - end) % 65536
      && frames[0].data[..end - start] == text[start..end]
      && Carries(frames[1..], message, end)
  }

  lemma {:induction false} CarriesCount(frames: seq<Frame>, message: CString, start: nat)
    requires Carries(frames, message, start) && start <= |Stored(message)|
    ensures |frames| == (|Stored(message)| - start + PAYLOAD_SIZE - 1) / PAYLOAD_SIZE
    decreases |frames|
  {
    if start < |Stored(message)| {
      CarriesCount(frames[1..], message, EndOf(message, start));
    }
  }

  /** The frame built for a command is the fragment it should be. */
  lemma {:induction false} FragmentCarries(cmd: Cmd, start: nat, seqNum: uint8, raw: Frame)
    requires start < |Stored(cmd.message)|
    ensures var f := FragmentAt(cmd, start, seqNum, raw);
            var end := EndOf(cmd.message, start);
            && f.length == end - start
            && f.remaining == (|Stored(cmd.message)| - end) % 65536
            && f.data[..end - start] == Stored(cmd.message)[start..end]
            && f.seqNum == seqNum && f.src == cmd.src && f.dst == cmd.dst && f.isAck == 0
  {
    hide StrNCpy;
    hide Crc8.Crc;
    hide Frames.Encode;
    var text := Stored(cmd.message);
    var end := EndOf(cmd.message, start);
    CopyStored(cmd.message, start, end);
    var copied := StrNCpy(text[start..], end - start);
    if end == |text| {
      assert copied[end - start - 1] == NUL;
      assert copied[end - start - 1 := NUL] == copied;
    }
  }

  // ---------- reassembly ----------

  /** No fragment but the last is left with a byte count whose low 16 bits are zero. */
  ghost predicate FitsHeaderFrom(message: CString, start: nat) {
    forall k: nat :: k > 0 && start + PAYLOAD_SIZE * k < |Stored(message)| ==>
      (|Stored(message)| - (start + PAYLOAD_SIZE * k)) % 65536 != 0
  }

  ghost predicate FitsHeader(message: CString) {
    FitsHeaderFrom(message, 0)
  }

  /** Every message whose stored length leaves at most 65535 bytes after the first fragment fits. */
  lemma {:induction false} ShortFits(message: CString)
    requires |Stored(message)| <= 65535 + PAYLOAD_SIZE
    ensures FitsHeader(message)
  {}

  lemma {:induction false} FitsStep(message: CString, start: nat)
    requires start + PAYLOAD_SIZE < |Stored(message)|
    ensures FitsHeaderFrom(message, start) <==>
            (|Stored(message)| - (start + PAYLOAD_SIZE)) % 65536 != 0 && FitsHeaderFrom(message, start + PAYLOAD_SIZE)
  {
    var n := |Stored(message)|;
    if FitsHeaderFrom(message, start) {
      assert (n - (start + PAYLOAD_SIZE * 1)) % 65536 != 0;
      forall k: nat | k > 0 && start + PAYLOAD_SIZE + PAYLOAD_SIZE * k < n
        ensures (n - (start + PAYLOAD_SIZE + PAYLOAD_SIZE * k)) % 65536 != 0
      {
        assert start + PAYLOAD_SIZE + PAYLOAD_SIZE * k == start + PAYLOAD_SIZE * (k + 1);
      }
    }
    if (n - (start + PAYLOAD_SIZE)) % 65536 != 0 && FitsHeaderFrom(message, start + PAYLOAD_SIZE) {
      forall k: nat | k > 0 && start + PAYLOAD_SIZE * k < n
        ensures (n - (start + PAYLOAD_SIZE * k)) % 65536 != 0
      {
        if k > 1 {
          assert start + PAYLOAD_SIZE * k == start + PAYLOAD_SIZE + PAYLOAD_SIZE * (k - 1);
        }
      }
    }
  }

  /** The first j fragments fill the buffer with the text they cover. */
  lemma {:induction false} BufferOfFragments(frames: seq<Frame>, message: CString, start: nat, j: nat)
    requires Carries(frames, message, start) && start <= |Stored(message)| && j <= |frames|
    ensures Buffer(frames[..j]) == Stored(message)[start..Min(start + PAYLOAD_SIZE * j, |Stored(message)|)]
    decreases j
  {
    hide StrNCpy;
    hide Stored;
    if j > 0 {
      var text, end := Stored(message), EndOf(message, start);
      FirstPiece(frames, message, start);
      BufferOfFragments(frames[1..], message, end, j - 1);
      assert frames[..j][1..] == frames[1..][..j - 1];
      var last := Min(start + PAYLOAD_SIZE * j, |text|);
      assert text[start..last] == text[start..end] + text[end..last];
    } else {
      assert Stored(message)[start..start] == [];
    }
  }

  lemma FirstPiece(frames: seq<Frame>, message: CString, start: nat)
    requires Carries(frames, message, start) && start < |Stored(message)|
    ensures frames != [] && frames[0].length == EndOf(message, start) - start
    ensures Carries(frames[1..], message, EndOf(message, start))
    ensures StrNCpy(frames[0].data, frames[0].length) == Stored(message)[start..EndOf(message, start)]
  {
    hide StrNCpy;
    var end := EndOf(message, start);
    CopyPrefix(frames[0].data, end - start);
    CopyStored(message, start, end);
  }

  /** The first frame that looks like the end of a message is its last fragment exactly when the message fits. */
  lemma {:induction false} EndOfFragments(frames: seq<Frame>, message: CString, start: nat)
    requires Carries(frames, message, start) && start < |Stored(message)|
    ensures FirstEnd(frames) < |frames|
    ensures FirstEnd(frames) == |frames| - 1 <==> FitsHeaderFrom(message, start)
    decreases |frames|
  {
    var end := EndOf(message, start);
    if end < |Stored(message)| {
      FitsStep(message, start);
      EndOfFragments(frames[1..], message, end);
    }
  }

  /** Reassembly stops at the first end. */
  lemma {:induction false} DrainStep(frames: seq<Frame>, k: nat)
    requires k == FirstEnd(frames) < |frames|
    ensures Drain(frames).0 == [Printed(Buffer(frames[..k + 1]))] + Drain(frames[k + 1..]).0
    ensures Drain(frames).1 == Drain(frames[k + 1..]).1
  {
    hide Buffer;
    hide Printed;
    hide FirstEnd;
  }

  lemma {:induction false} DrainNone(frames: seq<Frame>)
    requires FirstEnd(frames) == |frames|
    ensures Drain(frames) == ([], frames)
  {
    hide FirstEnd;
  }

  /** How many frames of a list look like the end of a message. */
  function Ends(frames: seq<Frame>): nat {
    if frames == [] then 0 else (if frames[0].remaining == 0 then 1 else 0) + Ends(frames[1..])
  }

  lemma {:induction false} EndsAfterFirst(frames: seq<Frame>)
    ensures var k := FirstEnd(frames);
            Ends(frames) == if k == |frames| then 0 else 1 + Ends(frames[k + 1..])
  {
    if frames != [] && frames[0].remaining != 0 {
      EndsAfterFirst(frames[1..]);
      assert FirstEnd(frames) < |frames| ==> frames[1..][FirstEnd(frames[1..]) + 1..] == frames[FirstEnd(frames) + 1..];
    }
  }

  lemma {:induction false} EndsAppend(a: seq<Frame>, b: seq<Frame>)
    ensures Ends(a + b) == Ends(a) + Ends(b)
  {
    if a == [] {
      assert a + b == b;
    } else {
      assert (a + b)[1..] == a[1..] + b;
      EndsAppend(a[1..], b);
    }
  }

  /** Reassembly prints one text for every frame that looks like an end, whatever the bytes are. */
  lemma {:induction false} DrainCount(frames: seq<Frame>)
    ensures |Drain(frames).0| == Ends(frames)
    decreases |frames|
  {
    hide *;
    EndsAfterFirst(frames);
    var k := FirstEnd(frames);
    if k < |frames| {
      DrainStep(frames, k);
      DrainCount(frames[k + 1..]);
    } else {
      DrainNone(frames);
    }
  }

  /** The fragments of a message look like one end exactly when it fits, and like more otherwise. */
  lemma {:induction false} EndsOfFragments(frames: seq<Frame>, message: CString, start: nat)
    requires Carries(frames, message, start) && start < |Stored(message)|
    ensures Ends(frames) >= 1 && (Ends(frames) == 1 <==> FitsHeaderFrom(message, start))
    decreases |frames|
  {
    var end := EndOf(message, start);
    if end < |Stored(message)| {
      FitsStep(message, start);
      EndsOfFragments(frames[1..], message, end);
    } else {
      assert frames[1..] == [];
    }
  }

  /** A message is reassembled to one text exactly when it fits the 16-bit header field, and to more otherwise. */
  lemma OneText(frames: seq<Frame>, message: CString)
    requires Carries(frames, message, 0)
    ensures |Drain(frames).0| >= 1 && (|Drain(frames).0| == 1 <==> FitsHeader(message))
  {
    hide *;
    EndsOfMessage(frames, message);
    DrainCount(frames);
  }

  /** Fragmenting a message and reassembling it gives it back exactly when it fits the 16-bit header field. */
  lemma {:induction false} RoundTrip(frames: seq<Frame>, message: CString)
    requires Carries(frames, message, 0)
    ensures Drain(frames) == ([message], []) <==> FitsHeader(message)
    ensures !FitsHeader(message) ==> |Drain(frames).0| >= 2
  {
    hide *;
    OneText(frames, message);
    if FitsHeader(message) {
      var k := FirstEnd(frames);
      MisfitEnds(frames, message);
      DrainStep(frames, k);
      WholeText(frames, message);
      DrainEmpty();
      assert frames[k + 1..] == [] && frames[..k + 1] == frames;
      assert [message] + [] == [message];
      assert Drain(frames) == (Drain(frames).0, Drain(frames).1);
    }
  }

  lemma DrainEmpty()
    ensures Drain([]) == ([], [])
  {}

  /** All fragments together print the message. */
  lemma WholeText(frames: seq<Frame>, message: CString)
    requires Carries(frames, message, 0)
    ensures Printed(Buffer(frames)) == message
  {
    hide Carries;
    hide Buffer;
    hide Printed;
    CarriesCount(frames, message, 0);
    BufferOfFragments(frames, message, 0, |frames|);
    var text := Stored(message);
    assert frames[..|frames|] == frames;
    assert Min(PAYLOAD_SIZE * |frames|, |text|) == |text|;
    assert text[0..|text|] == text;
    PrintedStored(message);
  }

  /** The first fragments alone print only the beginning of the message. */
  lemma EarlyText(frames: seq<Frame>, message: CString, k: nat)
    requires Carries(frames, message, 0) && k < |frames| && PAYLOAD_SIZE * (k + 1) < |message|
    ensures Printed(Buffer(frames[..k + 1])) == message[..PAYLOAD_SIZE * (k + 1)] != message
  {
    hide Carries;
    hide Buffer;
    hide Printed;
    BufferOfFragments(frames, message, 0, k + 1);
    var end := PAYLOAD_SIZE * (k + 1);
    assert Stored(message)[0..end] == message[..end];
    PrintedText(message[..end]);
    assert |message[..end]| == end;
  }

  /** A fragment that is not the last but reads "nothing remains" has at least 65536 bytes after it. */
  lemma {:induction false} FirstEndCovers(frames: seq<Frame>, message: CString, start: nat)
    requires Carries(frames, message, start) && start < |Stored(message)|
    requires FirstEnd(frames) < |frames| - 1
    ensures start + PAYLOAD_SIZE * (FirstEnd(frames) + 1) < |message|
    decreases |frames|
  {
    var end := EndOf(message, start);
    if frames[0].remaining != 0 {
      FirstEndCovers(frames[1..], message, end);
    }
  }

  lemma {:induction false} FirstEndBeforeText(frames: seq<Frame>, message: CString)
    requires Carries(frames, message, 0) && FirstEnd(frames) < |frames| - 1
    ensures PAYLOAD_SIZE * (FirstEnd(frames) + 1) < |message|
  {
    FirstEndCovers(frames, message, 0);
  }

  /** What becomes of a message with 65592 stored bytes: its first fragment reads "nothing remains". */
  lemma LongMessageDrained(frames: seq<Frame>, message: CString)
    requires Carries(frames, message, 0) && |message| == 65591
    ensures !FitsHeader(message) && |Drain(frames).0| >= 2 && Drain(frames).0[0] == message[..PAYLOAD_SIZE]
  {
    hide *;
    LongMessageMisfit(frames, message);
    RoundTrip(frames, message);
    EarlyText(frames, message, 0);
    DrainStep(frames, 0);
    assert Drain(frames).0 == [Printed(Buffer(frames[..1]))] + Drain(frames[1..]).0;
  }

  lemma LongMessageMisfit(frames: seq<Frame>, message: CString)
    requires Carries(frames, message, 0) && |message| == 65591
    ensures !FitsHeader(message) && |frames| > 1 && FirstEnd(frames) == 0 && PAYLOAD_SIZE * (0 + 1) < |message|
  {
    assert |Stored(message)| == 65592;
    assert (65592 - (0 + PAYLOAD_SIZE * 1)) % 65536 == 0;
    CarriesCount(frames, message, 0);
  }

  /**
   * A message that does not fit: 65591 equal characters. Its first fragment already reads "nothing remains", so only
   * the first 56 characters are printed as a message, and the others after it as another.
   */
  lemma {:induction false} LongMessageTruncated(c: Byte)
    requires c != NUL
    ensures !FitsHeader(seq(65591, i => c))
    ensures forall frames: seq<Frame> :: Carries(frames, seq(65591, i => c), 0) ==>
              Drain(frames).0 != [] && Drain(frames).0[0] == seq(56, i => c) && |Drain(frames).0| >= 2
  {
    var message: CString := seq(65591, i => c);
    assert |Stored(message)| == 65592;
    assert (65592 - (0 + PAYLOAD_SIZE * 1)) % 65536 == 0;
    hide *;
    forall frames: seq<Frame> | Carries(frames, message, 0)
      ensures Drain(frames).0 != [] && Drain(frames).0[0] == seq(56, i => c) && |Drain(frames).0| >= 2
    {
      LongMessageDrained(frames, message);
      assert message[..56] == seq(56, i => c);
    }
  }

  // ---------- streams of messages ----------

  /** Reassembly of a longer stream continues where reassembly of its beginning stopped. */
  lemma {:induction false} DrainAppend(a: seq<Frame>, b: seq<Frame>)
    ensures Drain(a + b).0 == Drain(a).0 + Drain(Drain(a).1 + b).0
    ensures Drain(a + b).1 == Drain(Drain(a).1 + b).1
    decreases |a|
  {
    hide *;
    var k := FirstEnd(a);
    if k < |a| {
      FirstEndAppend(a, b);
      DrainStep(a, k);
      DrainStep(a + b, k);
      DrainAppend(a[k + 1..], b);
      assert (a + b)[..k + 1] == a[..k + 1];
      assert (a + b)[k + 1..] == a[k + 1..] + b;
    } else {
      DrainNone(a);
    }
  }

  lemma {:induction false} FirstEndAppend(a: seq<Frame>, b: seq<Frame>)
    requires FirstEnd(a) < |a|
    ensures FirstEnd(a + b) == FirstEnd(a)
  {
    if a[0].remaining != 0 {
      assert (a + b)[1..] == a[1..] + b;
      FirstEndAppend(a[1..], b);
    }
  }

  /** How many fragments a message takes. */
  function Pieces(message: CString): nat {
    (|Stored(message)| + PAYLOAD_SIZE - 1) / PAYLOAD_SIZE
  }

  /** Where the fragments of message k begin in the stream of all fragments. */
  function Offset(messages: seq<CString>, k: nat): nat
    requires k <= |messages|
  {
    if k == 0 then 0 else Offset(messages, k - 1) + Pieces(messages[k - 1])
  }

  /** The k-th stretch of `gen` is the fragments of the k-th message. */
  ghost predicate CarriesAt(gen: seq<Frame>, messages: seq<CString>, k: nat)
    requires k < |messages|
  {
    Offset(messages, k + 1) <= |gen| && Carries(gen[Offset(messages, k)..Offset(messages, k + 1)], messages[k], 0)
  }

  /** `gen` is the fragments of all `messages`, in order. */
  ghost predicate CarriesAll(gen: seq<Frame>, messages: seq<CString>) {
    && |gen| == Offset(messages, |messages|)
    && forall k :: 0 <= k < |messages| ==> CarriesAt(gen, messages, k)
  }

  lemma {:induction false} OffsetPrefix(messages: seq<CString>, more: seq<CString>, k: nat)
    requires k <= |messages|
    ensures Offset(messages + more, k) == Offset(messages, k)
  {
    if k > 0 {
      OffsetPrefix(messages, more, k - 1);
    }
  }

  lemma {:induction false} OffsetMonotone(messages: seq<CString>, j: nat, k: nat)
    requires j <= k <= |messages|
    ensures Offset(messages, j) <= Offset(messages, k)
  {
    if j < k {
      OffsetMonotone(messages, j, k - 1);
    }
  }

  lemma {:induction false} PiecesCount(frames: seq<Frame>, message: CString)
    requires Carries(frames, message, 0)
    ensures |frames| == Pieces(message)
  {
    CarriesCount(frames, message, 0);
  }

  lemma {:induction false} CarriesAllAppend(gen: seq<Frame>, messages: seq<CString>, frames: seq<Frame>,
                                            message: CString)
    requires CarriesAll(gen, messages) && Carries(frames, message, 0)
    ensures CarriesAll(gen + frames, messages + [message])
  {
    hide Carries;
    hide Pieces;
    var all := messages + [message];
    PiecesCount(frames, message);
    OffsetPrefix(messages, [message], |messages|);
    assert Offset(all, |all|) == |gen + frames|;
    forall k | 0 <= k < |all| ensures CarriesAt(gen + frames, all, k) {
      if k < |messages| {
        OffsetPrefix(messages, [message], k);
        OffsetPrefix(messages, [message], k + 1);
        assert CarriesAt(gen, messages, k);
        var lo, hi := Offset(messages, k), Offset(messages, k + 1);
        assert (gen + frames)[lo..hi] == gen[lo..hi];
      } else {
        assert (gen + frames)[|gen|..|gen + frames|] == frames;
      }
    }
  }

  /** Reassembling everything up to a message boundary yields the messages up to it. */
  lemma {:induction false} DrainToBoundary(gen: seq<Frame>, messages: seq<CString>, k: nat)
    requires CarriesAll(gen, messages) && forall m :: m in messages ==> FitsHeader(m)
    requires k <= |messages|
    ensures Offset(messages, k) <= |gen|
    ensures Drain(gen[..Offset(messages, k)]).0 == messages[..k] && Drain(gen[..Offset(messages, k)]).1 == []
    decreases k
  {
    hide Carries;
    hide Pieces;
    hide FitsHeader;
    hide Drain;
    OffsetMonotone(messages, k, |messages|);
    if k == 0 {
      DrainNone([]) by { assert FirstEnd([]) == 0; }
    } else {
      OffsetMonotone(messages, k - 1, k);
      DrainToBoundary(gen, messages, k - 1);
      var lo, hi := Offset(messages, k - 1), Offset(messages, k);
      var part := gen[lo..hi];
      assert messages[k - 1] in messages && CarriesAt(gen, messages, k - 1);
      RoundTrip(part, messages[k - 1]);
      DrainAppend(gen[..lo], part);
      hide Offset;
      assert gen[..hi] == gen[..lo] + part;
      assert [] + part == part;
      assert messages[..k] == messages[..k - 1] + [messages[k - 1]];
    }
  }

  /** Fewer frames than a whole message print nothing. */
  lemma {:induction false} IncompleteStays(part: seq<Frame>, rest: seq<Frame>, message: CString)
    requires Carries(part + rest, message, 0) && FitsHeader(message) && rest != []
    ensures Drain(part) == ([], part)
  {
    EndOfFragments(part + rest, message, 0);
    if FirstEnd(part) < |part| {
      FirstEndAppend(part, rest);
    }
  }

  /**
   * Reassembling any prefix of a stream yields exactly the messages whose last fragment is in the prefix and leaves
   * exactly the fragments of the message that is not complete yet.
   */
  lemma {:induction false} DrainPrefix(gen: seq<Frame>, messages: seq<CString>, n: nat, k: nat)
    requires CarriesAll(gen, messages) && forall m :: m in messages ==> FitsHeader(m)
    requires k <= |messages| && Offset(messages, k) <= n <= |gen|
    requires k < |messages| ==> n < Offset(messages, k + 1)
    ensures Drain(gen[..n]).0 == messages[..k] && Drain(gen[..n]).1 == gen[Offset(messages, k)..n]
  {
    hide Carries;
    hide Pieces;
    hide FitsHeader;
    hide Drain;
    DrainToBoundary(gen, messages, k);
    var lo := Offset(messages, k);
    if k < |messages| {
      var hi := Offset(messages, k + 1);
      OffsetMonotone(messages, k + 1, |messages|);
      assert messages[k] in messages && CarriesAt(gen, messages, k);
      assert gen[lo..n] + gen[n..hi] == gen[lo..hi];
      IncompleteStays(gen[lo..n], gen[n..hi], messages[k]);
      DrainAppend(gen[..lo], gen[lo..n]);
      assert gen[..n] == gen[..lo] + gen[lo..n];
      assert [] + gen[lo..n] == gen[lo..n];
    }
  }

  /** The whole stream reassembles to all the messages. */
  lemma {:induction false} DrainAll(gen: seq<Frame>, messages: seq<CString>)
    requires CarriesAll(gen, messages) && forall m :: m in messages ==> FitsHeader(m)
    ensures Drain(gen) == (messages, [])
  {
    DrainToBoundary(gen, messages, |messages|);
    assert gen[..|gen|] == gen && messages[..|messages|] == messages;
  }

  /** A message that does not fit is printed cut short, in its own place in the sequence. */
  lemma {:induction false} MisfitPrinted(frames: seq<Frame>, message: CString, more: seq<Frame>)
    requires Carries(frames, message, 0) && !FitsHeader(message)
    ensures Drain(frames + more).0 != [] && Drain(frames + more).0[0] != message
  {
    hide *;
    var k := FirstEnd(frames);
    MisfitEnds(frames, message);
    FirstEndBeforeText(frames, message);
    FirstEndAppend(frames, more);
    EarlyText(frames, message, k);
    assert (frames + more)[..k + 1] == frames[..k + 1];
    DrainStep(frames + more, k);
    var t := Printed(Buffer(frames[..k + 1]));
    assert Drain(frames + more).0 == [t] + Drain((frames + more)[k + 1..]).0;
  }

  lemma MisfitEnds(frames: seq<Frame>, message: CString)
    requires Carries(frames, message, 0)
    ensures FirstEnd(frames) < |frames| && (FirstEnd(frames) == |frames| - 1 <==> FitsHeader(message))
  {
    hide Carries;
    hide FitsHeaderFrom;
    hide FirstEnd;
    EndOfFragments(frames, message, 0);
  }

  /** The messages before number k are carried by the frames before it. */
  lemma {:induction false} CarriesPrefix(gen: seq<Frame>, messages: seq<CString>, k: nat)
    requires CarriesAll(gen, messages) && k <= |messages|
    ensures Offset(messages, k) <= |gen| && CarriesAll(gen[..Offset(messages, k)], messages[..k])
  {
    hide Carries;
    hide Pieces;
    var early, lo := messages[..k], Offset(messages, k);
    assert early + messages[k..] == messages;
    OffsetPrefix(early, messages[k..], k);
    OffsetMonotone(messages, k, |messages|);
    forall j | 0 <= j < k ensures CarriesAt(gen[..lo], early, j) {
      assert CarriesAt(gen, messages, j);
      OffsetPrefix(early, messages[k..], j);
      OffsetPrefix(early, messages[k..], j + 1);
      OffsetMonotone(messages, j, j + 1);
      OffsetMonotone(messages, j + 1, k);
      var from, to := Offset(messages, j), Offset(messages, j + 1);
      assert gen[..lo][from..to] == gen[from..to];
    }
  }

  /** The index of the first message that does not fit the header, or the number of messages if all fit. */
  ghost function FirstMisfit(messages: seq<CString>): (k: nat)
    ensures k <= |messages| && (forall m :: m in messages[..k] ==> FitsHeader(m))
    ensures k < |messages| ==> !FitsHeader(messages[k])
  {
    if messages == [] || !FitsHeader(messages[0]) then 0
    else
      var j := FirstMisfit(messages[1..]);
      assert messages[..j + 1] == [messages[0]] + messages[1..][..j];
      j + 1
  }

  lemma NoMisfit(messages: seq<CString>)
    ensures FirstMisfit(messages) == |messages| <==> forall m :: m in messages ==> FitsHeader(m)
  {
    hide FitsHeader;
    hide FirstMisfit;
    assert messages[..|messages|] == messages;
    if FirstMisfit(messages) < |messages| {
      assert messages[FirstMisfit(messages)] in messages;
    }
  }

  /**
   * Printed texts agree with the messages up to the first message that does not fit; the text in the place of that one
   * is another.
   */
  ghost predicate InOrderToMisfit(texts: seq<CString>, messages: seq<CString>) {
    var k := FirstMisfit(messages);
    if |texts| <= k then texts <= messages
    else k < |messages| && texts[..k] == messages[..k] && texts[k] != messages[k]
  }

  /** So they are in order exactly as long as nothing has been printed in the place of a message that does not fit. */
  lemma InOrderIff(texts: seq<CString>, messages: seq<CString>)
    requires InOrderToMisfit(texts, messages)
    ensures texts <= messages <==> |texts| <= FirstMisfit(messages)
    ensures (forall m :: m in messages ==> FitsHeader(m)) ==> texts <= messages
  {
    hide FirstMisfit;
    hide FitsHeader;
    NoMisfit(messages);
  }

  lemma {:induction false} MisfitAppend(messages: seq<CString>, more: seq<CString>)
    ensures FirstMisfit(messages + more) ==
            if FirstMisfit(messages) < |messages| then FirstMisfit(messages) else |messages| + FirstMisfit(more)
  {
    hide FitsHeader;
    if messages == [] {
      assert messages + more == more;
    } else {
      assert (messages + more)[1..] == messages[1..] + more && (messages + more)[0] == messages[0];
      MisfitAppend(messages[1..], more);
    }
  }

  /** Messages commanded later change nothing about it. */
  lemma InOrderLater(texts: seq<CString>, messages: seq<CString>, more: seq<CString>)
    requires InOrderToMisfit(texts, messages)
    ensures InOrderToMisfit(texts, messages + more)
  {
    hide FirstMisfit;
    MisfitAppend(messages, more);
    assert forall k :: 0 <= k <= |messages| ==> (messages + more)[..k] == messages[..k];
  }

  /** From the fragments of a message that does not fit, either nothing is printed or another text. */
  lemma {:induction false} MisfitPart(part: seq<Frame>, rest: seq<Frame>, frames: seq<Frame>, message: CString,
                                      more: seq<Frame>)
    requires part + rest == frames + more && Carries(frames, message, 0) && !FitsHeader(message)
    requires Drain(part).0 != []
    ensures Drain(part).0[0] != message
  {
    hide *;
    MisfitPrinted(frames, message, more);
    DrainAppend(part, rest);
    assert Drain(part + rest).0[0] == Drain(part).0[0];
  }

  /** What reassembling any beginning of a stream prints is in order up to the first message that does not fit. */
  lemma {:induction false} PrintedUpToMisfit(gen: seq<Frame>, messages: seq<CString>, n: nat)
    requires CarriesAll(gen, messages) && n <= |gen|
    ensures InOrderToMisfit(Drain(gen[..n]).0, messages)
  {
    hide Carries;
    hide Pieces;
    hide FitsHeader;
    hide FirstMisfit;
    hide Drain;
    var k := FirstMisfit(messages);
    var lo := Offset(messages, k);
    CarriesPrefix(gen, messages, k);
    DrainAll(gen[..lo], messages[..k]);
    if n <= lo {
      DrainAppend(gen[..n], gen[n..lo]);
      assert gen[..n] + gen[n..lo] == gen[..lo];
    } else {
      OffsetMonotone(messages, k, |messages|);
      assert k < |messages|;
      var hi := Offset(messages, k + 1);
      OffsetMonotone(messages, k + 1, |messages|);
      assert CarriesAt(gen, messages, k);
      DrainAppend(gen[..lo], gen[lo..n]);
      assert gen[..lo] + gen[lo..n] == gen[..n] && [] + gen[lo..n] == gen[lo..n];
      if Drain(gen[lo..n]).0 != [] {
        assert gen[lo..n] + gen[n..] == gen[lo..hi] + gen[hi..];
        MisfitPart(gen[lo..n], gen[n..], gen[lo..hi], messages[k], gen[hi..]);
      }
    }
  }

  /** A stream looks like as many ends as it has messages exactly when all of them fit, and like more otherwise. */
  lemma {:induction false} EndsOfStream(gen: seq<Frame>, messages: seq<CString>, k: nat)
    requires CarriesAll(gen, messages) && k <= |messages|
    ensures Offset(messages, k) <= |gen| && Ends(gen[..Offset(messages, k)]) >= k
    ensures Ends(gen[..Offset(messages, k)]) == k <==> forall m :: m in messages[..k] ==> FitsHeader(m)
    decreases k
  {
    hide Carries;
    hide Pieces;
    hide FitsHeader;
    hide Ends;
    OffsetMonotone(messages, k, |messages|);
    if k == 0 {
      EndsNone();
    } else {
      OffsetMonotone(messages, k - 1, k);
      EndsOfStream(gen, messages, k - 1);
      var lo, hi := Offset(messages, k - 1), Offset(messages, k);
      assert CarriesAt(gen, messages, k - 1);
      EndsOfMessage(gen[lo..hi], messages[k - 1]);
      EndsAppend(gen[..lo], gen[lo..hi]);
      hide Offset;
      assert gen[..hi] == gen[..lo] + gen[lo..hi];
      assert messages[..k] == messages[..k - 1] + [messages[k - 1]];
    }
  }

  lemma EndsNone()
    ensures Ends([]) == 0
  {}

  lemma EndsOfMessage(frames: seq<Frame>, message: CString)
    requires Carries(frames, message, 0)
    ensures Ends(frames) >= 1 && (Ends(frames) == 1 <==> FitsHeader(message))
  {
    hide Carries;
    hide FitsHeaderFrom;
    hide Ends;
    EndsOfFragments(frames, message, 0);
  }

  /**
   * A whole stream reassembles to the messages it was made from exactly when all of them fit; if they do not, more
   * texts come out than there are messages.
   */
  lemma {:induction false} DrainAllIff(gen: seq<Frame>, messages: seq<CString>)
    requires CarriesAll(gen, messages)
    ensures Drain(gen).0 == messages <==> forall m :: m in messages ==> FitsHeader(m)
    ensures |Drain(gen).0| >= |messages|
    ensures |Drain(gen).0| == |messages| <==> forall m :: m in messages ==> FitsHeader(m)
  {
    hide FitsHeader;
    hide Drain;
    hide Offset;
    EndsOfStream(gen, messages, |messages|);
    assert gen[..|gen|] == gen && messages[..|messages|] == messages;
    DrainCount(gen);
    if forall m :: m in messages ==> FitsHeader(m) {
      DrainAll(gen, messages);
    }
  }
}
