/**
 The receiving side of ULog streaming over MAVLink (Tools/mavlink_ulog_streaming.py):
 what one arriving packet does to the receiver. The state is a value, `State`; the class
 at the end of the file updates its fields in place and is proved to follow it.
 */
module UlogReceiver {

  type Byte = x: int | 0 <= x < 256

  datatype Kind = LoggingData | LoggingDataAcked

  /** `data` is the payload already cut to the packet's length field. */
  datatype Packet = Packet(kind: Kind, sequence: nat, data: seq<Byte>, firstMessageOffset: Byte)

  datatype State = State(
    file: seq<Byte>,           // everything written to the output file
    pending: seq<Byte>,        // ulog_message
    gotUlogHeader: bool,
    gotHeaderSection: bool,
    lastSequence: int,         // -1 before the first packet
    numDropouts: nat,
    acks: seq<nat>)            // sequence numbers acknowledged to the sender

  const INITIAL := State([], [], false, false, -1, 0, [])

  const NO_MESSAGE_START: Byte := 255
  const SEQUENCES := 0x1_0000
  const HALF := 0x8000

  // Python slices clamp at the end of the list.
  function From<T>(s: seq<T>, n: nat): seq<T> { if n <= |s| then s[n..] else [] }

  function UpTo<T>(s: seq<T>, n: nat): seq<T> { if n <= |s| then s[..n] else s }

  /** Length of the ULog message at the head of `data`, including its 3 byte header. */
  function MessageLength(data: seq<Byte>): nat
    requires |data| > 2
  {
    data[0] as int + data[1] as int * 256 + 3
  }

  predicate HasWholeMessage(data: seq<Byte>) {
    |data| > 2 && MessageLength(data) <= |data|
  }

  /** How many leading bytes of `data` are whole messages. */
  function WholeBytes(data: seq<Byte>): (n: nat)
    ensures n <= |data|
  {
    if HasWholeMessage(data)
    then MessageLength(data) + WholeBytes(data[MessageLength(data)..])
    else 0
  }

  /** (is it newer, how many packets are missing before it) */
  function CheckSequence(last: int, sequence: nat): (bool, int) {
    if last == -1 then (true, 0)
    else if sequence == last then (false, 0)
    else if sequence > last then
      if sequence - last > HALF then (false, 0) else (true, sequence - last - 1)
    else
      if last - sequence > HALF then (true, SEQUENCES - last - 1 + sequence) else (false, 0)
  }

  function Min(a: int, b: int): int { if a < b then a else b }

  /** The ULog dropout message ('O', 16 bit duration): ten milliseconds per lost packet. */
  function DropoutMessage(drops: nat): (m: seq<Byte>)
    requires drops > 0
    ensures HasWholeMessage(m) && MessageLength(m) == |m|
  {
    [2, 0, 79, Min(drops, 25) * 10, 0]
  }

  /** Lines 191-196: the first sixteen bytes of the stream are copied verbatim. */
  function TakeHeader(s: State, data: seq<Byte>): (State, seq<Byte>)
    requires s.gotUlogHeader || |data| >= 16
  {
    if s.gotUlogHeader then (s, data)
    else (s.(file := s.file + data[..16], gotUlogHeader := true), data[16..])
  }

  /** Lines 198-206: what losing packets does before the new packet's data is looked at. */
  function NoteDrops(s: State, drops: nat): State {
    if drops == 0 then s
    else
      var mark := if s.gotHeaderSection then DropoutMessage(drops) else [];
      s.(file := s.file + mark + s.pending[..WholeBytes(s.pending)], pending := [])
  }

  /** Lines 212-221. */
  function Append(s: State, data: seq<Byte>, offset: nat): State {
    if offset == NO_MESSAGE_START && s.pending != [] then s.(pending := s.pending + data)
    else
      var closed := if s.pending != [] then s.pending + UpTo(data, offset) else [];
      var rest := From(data, offset);
      var n := WholeBytes(rest);
      s.(file := s.file + closed + rest[..n], pending := rest[n..])
  }

  function Process(s: State, data: seq<Byte>, offset: Byte, drops: nat): State
    requires s.gotUlogHeader || |data| >= 16
  {
    var (s1, body) := TakeHeader(s, data);
    var s2 := NoteDrops(s1, drops);
    if drops == 0 then Append(s2, body, offset)
    else if offset == NO_MESSAGE_START then s2
    else Append(s2, From(body, offset), 0)
  }

  /** The bookkeeping of read_message for a data packet that CheckSequence found newer. */
  function Accept(s: State, p: Packet, drops: nat): State {
    s.(numDropouts := s.numDropouts + drops,
    gotHeaderSection := s.gotHeaderSection || p.kind == LoggingData,
    lastSequence := p.sequence)
  }

  function Acknowledge(s: State, p: Packet): State {
    if p.kind == LoggingDataAcked then s.(acks := s.acks + [p.sequence]) else s
  }

  /** The first packet must carry the file header, or an exception ends the session. */
  predicate LongEnough(s: State, p: Packet) { s.gotUlogHeader || |p.data| >= 16 }

  predicate Newer(s: State, p: Packet) {
    CheckSequence(s.lastSequence, p.sequence).0
  }

  function Drops(s: State, p: Packet): (n: nat)
    requires InRange(s, p)
  {
    CheckSequence(s.lastSequence, p.sequence).1
  }

  /** Sequence numbers of the state and of the packet are 16 bit values. */
  predicate InRange(s: State, p: Packet) {
    -1 <= s.lastSequence < SEQUENCES && p.sequence < SEQUENCES
  }

  /** One turn of the main loop: read_message, then process_streamed_ulog_data. */
  function Receive(s: State, p: Packet): State
    requires InRange(s, p)
    requires LongEnough(s, p)
  {
    var s0 := Acknowledge(s, p);
    if !Newer(s, p) then s0
    else
      Process(Accept(s0, p, Drops(s, p)), p.data, p.firstMessageOffset, Drops(s, p))
  }

  /** The receiver as the script has it: fields updated in place. */
  class MavlinkLogStreaming {
    var file: seq<Byte>
    var ulogMessage: seq<Byte>
    var gotUlogHeader: bool
    var gotHeaderSection: bool
    var lastSequence: int
    var numDropouts: nat
    var acks: seq<nat>

    ghost function Abstract(): State
      reads this
    {
      State(file, ulogMessage, gotUlogHeader, gotHeaderSection, lastSequence, numDropouts, acks)
    }

    constructor ()
      ensures Abstract() == INITIAL
    {
      file, ulogMessage := [], [];
      gotUlogHeader, gotHeaderSection := false, false;
      lastSequence, numDropouts, acks := -1, 0, [];
    }

    method WriteUlogMessages(input: seq<Byte>) returns (data: seq<Byte>)
      modifies this`file
      ensures file == old(file) + input[..WholeBytes(input)]
      ensures data == input[WholeBytes(input)..]
    {
      data := input;
      ghost var done := 0;
      while |data| > 2
        invariant done <= |input| && data == input[done..]
        invariant WholeBytes(input) == done + WholeBytes(data)
        invariant file == old(file) + input[..done]
        decreases |data|
      {
        var messageLength := data[0] as int + data[1] as int * 256 + 3;
        if messageLength > |data| {
          break;
        }
        assert input[..done] + data[..messageLength] == input[..done + messageLength];
        assert data[messageLength..] == input[done + messageLength..];
        file := file + data[..messageLength];
        data := data[messageLength..];
        done := done + messageLength;
      }
    }

    method ProcessStreamedUlogData(input: seq<Byte>, offset: Byte, drops: nat) returns (raised: bool)
      modifies this
      ensures raised == !(old(gotUlogHeader) || |input| >= 16)
      ensures raised ==> Abstract() == old(Abstract())
      ensures !raised ==> Abstract() == Process(old(Abstract()), input, offset, drops)
    {
      var data, firstMsgStart := input, offset;
      if !gotUlogHeader {
        if |data| < 16 {
          return true;
        }
        file := file + data[..16];
        data := data[16..];
        gotUlogHeader := true;
      }
      raised := false;
      ghost var s1 := TakeHeader(old(Abstract()), input).0;
      assert Abstract() == s1;
      if gotHeaderSection && drops > 0 {
        file := file + [2, 0, 79, Min(drops, 25) * 10, 0];
      }
      if drops > 0 {
        var _ := WriteUlogMessages(ulogMessage);
        ulogMessage := [];
        assert s1.file + [] == s1.file;
        assert Abstract() == NoteDrops(s1, drops);
        if firstMsgStart == NO_MESSAGE_START {
          return;
        }
        data := From(data, firstMsgStart);
        firstMsgStart := 0;
      }
      ghost var s2 := Abstract();
      if firstMsgStart == NO_MESSAGE_START && |ulogMessage| > 0 {
        ulogMessage := ulogMessage + data;
        return;
      }
      if |ulogMessage| > 0 {
        file := file + (ulogMessage + UpTo(data, firstMsgStart));
        ulogMessage := [];
      }
      var rest := WriteUlogMessages(From(data, firstMsgStart));
      ulogMessage := rest;
      assert s2.file + [] == s2.file;
      assert Abstract() == Append(s2, data, firstMsgStart);
    }

    /** read_message and then, for a newer packet, process_streamed_ulog_data. */
    method ReadAndProcess(p: Packet) returns (raised: bool)
      requires InRange(Abstract(), p)
      modifies this
      ensures raised == (Newer(old(Abstract()), p) && !LongEnough(old(Abstract()), p))
      ensures !raised && LongEnough(old(Abstract()), p) ==> Abstract() == Receive(old(Abstract()), p)
      ensures !Newer(old(Abstract()), p) ==> Abstract() == Acknowledge(old(Abstract()), p)
      ensures raised ==> Abstract() == Accept(Acknowledge(old(Abstract()), p), p, Drops(old(Abstract()), p))
    {
      var (isNewer, drops) := CheckSequence(lastSequence, p.sequence);
      if p.kind == LoggingDataAcked {
        acks := acks + [p.sequence];
      }
      raised := false;
      if isNewer {
        if drops > 0 {
          numDropouts := numDropouts + drops;
        }
        if p.kind == LoggingData && !gotHeaderSection {
          gotHeaderSection := true;
        }
        lastSequence := p.sequence;
        raised := ProcessStreamedUlogData(p.data, p.firstMessageOffset, drops);
      }
    }
  }
}
