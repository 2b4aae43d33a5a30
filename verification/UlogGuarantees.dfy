/**
 What the receiver of UlogReceiver.dfy guarantees over every run of the channel of
 UlogFraming.dfy: the file is always the file header followed by whole messages of the
 sender, in order and at most once, and a message is there exactly when every packet
 carrying one of its bytes got through.
 */
module UlogGuarantees {
  import opened UlogReceiver
  import opened UlogFraming

  // ---------- nothing lost: the file and the pending bytes are the stream so far ----------

  ghost predicate IsStart(sender: Sender, at: int) {
    exists i | 0 <= i <= |sender.msgs| :: sender.Start(i) == at
  }

  ghost predicate Conserved(sender: Sender, s: State, at: nat) {
    s.numDropouts == 0 ==>
      && at <= |sender.Stream()|
      && s.file + s.pending == sender.Stream()[..at]
      && (s.pending == [] ==> IsStart(sender, at))
  }

  lemma AppendConserves(sender: Sender, s: State, at: nat, to: nat, offset: Byte)
    requires sender.Valid() && Conserved(sender, s, at)
    requires at <= to <= |sender.Stream()| && to - at <= 249
    requires OffsetAt(sender, at, to, offset)
    ensures Conserved(sender, Append(s, sender.Stream()[at..to], offset), to)
  {
    hide Append, Sender.Valid, Sender.Start, Sender.Stream, WholeBytes;
    if s.numDropouts == 0 {
      if offset != NO_MESSAGE_START {
        var t :| 0 <= t <= |sender.msgs| && sender.Start(t) == at + offset;
        AppendFromStartConserves(sender, s, at, to, t);
      } else if s.pending != [] {
        AppendMiddleConserves(sender, s, at, to);
      } else {
        assert at == to && sender.Stream()[at..to] == [];
        AppendNothing(s, offset);
      }
    } else {
      AppendKeepsDropouts(s, sender.Stream()[at..to], offset);
    }
  }

  lemma AppendKeepsDropouts(s: State, data: seq<Byte>, offset: nat)
    ensures Append(s, data, offset).numDropouts == s.numDropouts
  {
  }

  lemma AppendMiddleConserves(sender: Sender, s: State, at: nat, to: nat)
    requires s.numDropouts == 0 && s.pending != [] && Conserved(sender, s, at) && at <= to <= |sender.Stream()|
    ensures Conserved(sender, Append(s, sender.Stream()[at..to], NO_MESSAGE_START), to)
  {
    hide Sender.Stream, WholeBytes, IsStart;
    var stream := sender.Stream();
    SliceAfter(stream, at, to);
    assert s.file + (s.pending + stream[at..to]) == s.file + s.pending + stream[at..to];
  }

  lemma SliceAfter<T>(s: seq<T>, a: nat, b: nat)
    requires a <= b <= |s|
    ensures s[..a] + s[a..b] == s[..b]
  {
  }

  lemma AppendNothing(s: State, offset: nat)
    requires s.pending == []
    ensures Append(s, [], offset) == s
  {
    assert s.file + [] + [] == s.file;
  }

  lemma AppendFromStartConserves(sender: Sender, s: State, at: nat, to: nat, t: nat)
    requires sender.Valid() && s.numDropouts == 0 && Conserved(sender, s, at)
    requires t <= |sender.msgs| && at <= sender.Start(t) <= to <= |sender.Stream()| && to - at <= 249
    requires sender.NoStartIn(at, sender.Start(t))
    ensures Conserved(sender, Append(s, sender.Stream()[at..to], sender.Start(t) - at), to)
  {
    var start := sender.Start(t);
    AppendFromStart(sender, s, at, to, start);
    var k := WholeBytesFollowsBoundaries(sender, t, to);
    var n := WholeBytes(sender.Stream()[start..to]);
    assert s.pending == [] ==> at == start;
    Glue(sender.Stream(), s.file, s.pending, at, start, to, n);
    assert n == to - start ==> sender.Start(k) == to;
  }

  lemma Glue<T>(stream: seq<T>, file: seq<T>, pending: seq<T>, at: nat, start: nat, to: nat, n: nat)
    requires at <= start <= to <= |stream| && n <= to - start
    requires file + pending == stream[..at] && (pending == [] ==> at == start)
    ensures
      var closed := if pending == [] then [] else pending + stream[at..start];
      var rest := stream[start..to];
      file + closed + rest[..n] + rest[n..] == stream[..to]
  {
    var closed := if pending == [] then [] else pending + stream[at..start];
    var rest := stream[start..to];
    assert file + closed == stream[..start] by {
      if pending != [] {
        assert file + closed == (file + pending) + stream[at..start];
      }
    }
    assert file + closed + rest[..n] + rest[n..] == stream[..start] + rest;
  }

  // ---------- the invariant of a session ----------

  ghost predicate Inv(sender: Sender, x: Session, items: seq<Item>, j: nat) {
    && sender.Valid()
    && x.taken != [] && x.taken[0] == 0 && TakenOk(sender, x.taken)
    && x.s.gotUlogHeader
    && x.s.lastSequence == (sender.first + x.Last()) % SEQUENCES
    && |x.taken| + x.s.numDropouts == x.Last() + 1
    && Framed(sender, x.s, x.taken, items, j, sender.cuts[x.Last() + 1])
    && Conserved(sender, x.s, sender.cuts[x.Last() + 1])
    && Recorded(x, items)
  }

  /** The file records exactly the gaps, from the first LOGGING_DATA packet on. */
  ghost predicate Recorded(x: Session, items: seq<Item>) {
    && |x.kinds| == |x.taken|
    && (x.s.gotHeaderSection <==> LoggingData in x.kinds)
    && Noted(items) == Gaps(x.taken, x.kinds)
  }

  /** Once the header is in, the three phases of Process are NoteDrops and then Append. */
  lemma ProcessIsAppend(s: State, data: seq<Byte>, offset: Byte, drops: nat)
    requires s.gotUlogHeader && |data| < 255
    ensures Process(s, data, offset, drops) == Append(NoteDrops(s, drops), data, offset)
  {
    if drops > 0 {
      var s2 := NoteDrops(s, drops);
      assert s2.file + [] + [] == s2.file;
      assert From(From(data, offset), 0) == From(data, offset);
    }
  }

  lemma BeforeLast(sender: Sender, taken: seq<nat>)
    requires sender.Valid() && TakenOk(sender, taken) && taken != []
    ensures Before(sender, taken, sender.cuts[taken[|taken| - 1] + 1])
  {
    forall p | p in taken && p < sender.Packets()
      ensures sender.cuts[p + 1] <= sender.cuts[taken[|taken| - 1] + 1]
    {
      var k :| 0 <= k < |taken| && taken[k] == p;
    }
  }

  /** With just the file header written, the receiver is at position 16. */
  lemma HeaderOnly(sender: Sender, s: State)
    requires sender.Valid() && s.file == sender.header && s.pending == []
    ensures Framed(sender, s, [], [], 0, 16)
    ensures Conserved(sender, s, 16)
  {
    FlatPrefix(sender, 0, |sender.msgs|);
    assert sender.Start(0) == 16;
    assert s.file == sender.header + Render(sender, []);
    assert s.file + s.pending == sender.Stream()[..16];
  }

  lemma FirstPacketIsAppend(sender: Sender, packet: Packet) returns (s: State)
    requires sender.Valid() && sender.Sends(0, packet)
    ensures s.file == sender.header && s.pending == []
    ensures s.gotUlogHeader && s.numDropouts == 0 && s.lastSequence == packet.sequence
    ensures s.gotHeaderSection == (packet.kind == LoggingData)
    ensures |packet.data| >= 16
    ensures Receive(INITIAL, packet) == Append(s, sender.Stream()[16..sender.cuts[1]], 0)
  {
    FlatPrefix(sender, 0, |sender.msgs|);
    var s0 := Accept(Acknowledge(INITIAL, packet), packet, 0);
    s := TakeHeader(s0, packet.data).0;
    assert packet.data[..16] == sender.header;
    assert packet.data[16..] == sender.Stream()[16..sender.cuts[1]];
  }

  lemma AppendKeepsBooks(s: State, data: seq<Byte>, offset: nat)
    ensures
      var s' := Append(s, data, offset);
      && s'.gotUlogHeader == s.gotUlogHeader
      && s'.numDropouts == s.numDropouts
      && s'.lastSequence == s.lastSequence
      && s'.gotHeaderSection == s.gotHeaderSection
  {
  }

  lemma FirstPacket(sender: Sender, a: Arrival)
    returns (items: seq<Item>, j: nat)
    requires sender.Valid() && MayArrive(sender, Session(INITIAL, [], []), a)
    ensures CanReceive(Session(INITIAL, [], []), a)
    ensures Inv(sender, After(Session(INITIAL, [], []), a), items, j)
  {
    hide Append, Framed, Conserved;
    var to := sender.cuts[1];
    var s := FirstPacketIsAppend(sender, a.packet);
    HeaderOnly(sender, s);
    assert OffsetAt(sender, 16, to, 0) by {
      assert sender.Start(0) == 16;
    }
    items, j := TakingPacket(sender, s, [], [], 0, 0, 16, to, 0);
    AppendConserves(sender, s, 16, to, 0);
    AppendKeepsBooks(s, sender.Stream()[16..to], 0);
    assert [] + [0] == [0];
  }

  /** What the sender's packet p supplies to a receiver that took only earlier packets. */
  lemma PacketSupplies(sender: Sender, taken: seq<nat>, p: nat, packet: Packet)
    requires sender.Valid() && TakenOk(sender, taken) && taken != []
    requires taken[|taken| - 1] < p && sender.Sends(p, packet)
    ensures Supplies(sender, taken, p, sender.cuts[p], sender.cuts[p + 1])
    ensures OffsetAt(sender, sender.cuts[p], sender.cuts[p + 1], packet.firstMessageOffset)
    ensures |packet.data| <= 249
    ensures sender.cuts[taken[|taken| - 1] + 1] <= sender.cuts[p]
    ensures Before(sender, taken, sender.cuts[taken[|taken| - 1] + 1])
  {
    BeforeLast(sender, taken);
    assert sender.cuts[p] < sender.cuts[p + 1];
  }

  /** What is recorded of a gap. */
  function AfterGap(s: State, drops: nat): seq<nat> { if drops > 0 && s.gotHeaderSection then [drops] else [] }

  /** From the end of the newest packet taken to the start of packet p. */
  lemma ReachPacket(sender: Sender, s: State, taken: seq<nat>, items: seq<Item>, j: nat, p: nat)
    returns (items': seq<Item>, j': nat)
    requires sender.Valid() && TakenOk(sender, taken) && taken != []
    requires taken[|taken| - 1] < p < sender.Packets()
    requires
      var at := sender.cuts[taken[|taken| - 1] + 1];
      Before(sender, taken, at) && Framed(sender, s, taken, items, j, at)
    ensures Framed(sender, NoteDrops(s, p - taken[|taken| - 1] - 1), taken, items', j', sender.cuts[p])
    ensures Noted(items') == Noted(items) + AfterGap(s, p - taken[|taken| - 1] - 1)
  {
    hide Noted;
    var last := taken[|taken| - 1];
    if last + 1 == p {
      items', j' := items, j;
    } else {
      items', j' := LosingPackets(sender, s, taken, items, j, sender.cuts[last + 1], sender.cuts[p], p - last - 1);
    }
  }

  /** The newest packet p moves the receiver to the end of p's data. */
  lemma NewerPacket(sender: Sender, s: State, taken: seq<nat>, items: seq<Item>, j: nat, p: nat, packet: Packet)
    returns (items': seq<Item>, j': nat)
    requires sender.Valid() && TakenOk(sender, taken) && taken != []
    requires taken[|taken| - 1] < p && sender.Sends(p, packet) && s.gotUlogHeader
    requires
      var at := sender.cuts[taken[|taken| - 1] + 1];
      Framed(sender, s, taken, items, j, at) && (taken[|taken| - 1] + 1 == p ==> Conserved(sender, s, at))
    requires taken[|taken| - 1] + 1 < p ==> s.numDropouts > 0
    ensures
      var s' := Process(s, packet.data, packet.firstMessageOffset, p - taken[|taken| - 1] - 1);
      && Framed(sender, s', taken + [p], items', j', sender.cuts[p + 1])
      && Conserved(sender, s', sender.cuts[p + 1])
    ensures Noted(items') == Noted(items) + AfterGap(s, p - taken[|taken| - 1] - 1)
  {
    hide Process, Append, NoteDrops, Framed, OffsetAt, Supplies, Noted;
    var drops := p - taken[|taken| - 1] - 1;
    PacketSupplies(sender, taken, p, packet);
    ProcessIsAppend(s, packet.data, packet.firstMessageOffset, drops);
    var items1, j1 := ReachPacket(sender, s, taken, items, j, p);
    var s1 := NoteDrops(s, drops);
    items', j' := TakingPacket(sender, s1, taken, items1, j1, p, sender.cuts[p], sender.cuts[p + 1], packet.firstMessageOffset);
    assert Conserved(sender, s1, sender.cuts[p]) by {
      NoteDropsConserves(s, drops);
    }
    AppendConserves(sender, s1, sender.cuts[p], sender.cuts[p + 1], packet.firstMessageOffset);
  }

  lemma NoteDropsConserves(s: State, drops: nat)
    ensures NoteDrops(s, drops).numDropouts == s.numDropouts
    ensures drops == 0 ==> NoteDrops(s, drops) == s
  {
  }

  lemma TakesExactlyNewer(sender: Sender, x: Session, items: seq<Item>, j: nat, a: Arrival)
    requires Inv(sender, x, items, j) && MayArrive(sender, x, a)
    ensures CanReceive(x, a)
    ensures Newer(x.s, a.packet) <==> x.Last() < a.index
    ensures x.Last() < a.index ==> Drops(x.s, a.packet) == a.index - x.Last() - 1
  {
    SequenceNumbersRefineCounters(sender.first + x.Last(), sender.first + a.index);
  }

  /** The bookkeeping of read_message touches neither the file nor the pending bytes. */
  lemma AcceptKeepsFrame(sender: Sender, s: State, taken: seq<nat>, items: seq<Item>, j: nat, at: nat,
                         packet: Packet, drops: nat)
    requires Framed(sender, s, taken, items, j, at) && Conserved(sender, s, at)
    ensures Framed(sender, Acknowledge(s, packet), taken, items, j, at)
    ensures Conserved(sender, Acknowledge(s, packet), at)
    ensures Framed(sender, Accept(Acknowledge(s, packet), packet, drops), taken, items, j, at)
    ensures drops == 0 ==> Conserved(sender, Accept(Acknowledge(s, packet), packet, drops), at)
  {
  }

  lemma ProcessKeepsBooks(s: State, data: seq<Byte>, offset: Byte, drops: nat)
    requires s.gotUlogHeader || |data| >= 16
    ensures
      var s' := Process(s, data, offset, drops);
      && s'.gotHeaderSection == s.gotHeaderSection
      && s'.acks == s.acks
      && s'.gotUlogHeader
      && s'.numDropouts == s.numDropouts
      && s'.lastSequence == s.lastSequence
  {
  }

  lemma TakenOkMore(sender: Sender, taken: seq<nat>, p: nat)
    requires TakenOk(sender, taken) && taken != [] && taken[|taken| - 1] < p < sender.Packets()
    ensures TakenOk(sender, taken + [p])
  {
  }

  lemma RecordedTaken(x: Session, items: seq<Item>, y: Session, items': seq<Item>, p: nat, kind: Kind)
    requires Recorded(x, items) && x.taken != [] && x.Last() < p
    requires y.taken == x.taken + [p] && y.kinds == x.kinds + [kind]
    requires y.s.gotHeaderSection == (x.s.gotHeaderSection || kind == LoggingData)
    requires Noted(items') == Noted(items) + AfterGap(y.s, p - x.Last() - 1)
    ensures Recorded(y, items')
  {
    GapsOneMore(x.taken, x.kinds, p, kind);
    hide Noted, Gaps;
  }

  /** What After is for a packet that is newer, and for one that is not. */
  lemma AfterCases(x: Session, a: Arrival)
    requires CanReceive(x, a)
    ensures !Newer(x.s, a.packet) ==> After(x, a) == Session(Acknowledge(x.s, a.packet), x.taken, x.kinds)
    ensures Newer(x.s, a.packet) ==>
              var s0 := Accept(Acknowledge(x.s, a.packet), a.packet, Drops(x.s, a.packet));
              && (s0.gotUlogHeader || |a.packet.data| >= 16)
              && After(x, a) == Session(Process(s0, a.packet.data, a.packet.firstMessageOffset, Drops(x.s, a.packet)),
                                        x.taken + [a.index], x.kinds + [a.packet.kind])
  {
  }

  /** A newer packet keeps the invariant. */
  lemma NextNewer(sender: Sender, x: Session, items: seq<Item>, j: nat, a: Arrival)
    returns (items': seq<Item>, j': nat)
    requires Inv(sender, x, items, j) && MayArrive(sender, x, a) && x.Last() < a.index
    ensures CanReceive(x, a)
    ensures Inv(sender, After(x, a), items', j')
  {
    hide Process, Framed, Conserved, Recorded, Noted, Sender.Valid;
    TakesExactlyNewer(sender, x, items, j, a);
    AfterCases(x, a);
    hide After, Newer, Drops;
    var drops := a.index - x.Last() - 1;
    AcceptKeepsFrame(sender, x.s, x.taken, items, j, sender.cuts[x.Last() + 1], a.packet, drops);
    var s0 := Accept(Acknowledge(x.s, a.packet), a.packet, drops);
    items', j' := NewerPacket(sender, s0, x.taken, items, j, a.index, a.packet);
    ProcessKeepsBooks(s0, a.packet.data, a.packet.firstMessageOffset, drops);
    TakenOkMore(sender, x.taken, a.index);
    RecordedTaken(x, items, After(x, a), items', a.index, a.packet.kind);
  }

  /** Every arrival the channel allows is handled, and keeps the invariant. */
  lemma NextPacket(sender: Sender, x: Session, items: seq<Item>, j: nat, a: Arrival)
    returns (items': seq<Item>, j': nat)
    requires Inv(sender, x, items, j) && MayArrive(sender, x, a)
    ensures CanReceive(x, a)
    ensures Inv(sender, After(x, a), items', j')
  {
    hide Process, Framed, Conserved, Recorded, Noted, Sender.Valid;
    TakesExactlyNewer(sender, x, items, j, a);
    if x.Last() < a.index {
      items', j' := NextNewer(sender, x, items, j, a);
    } else {
      items', j' := items, j;
      AfterCases(x, a);
      hide After, Newer, Drops;
      AcceptKeepsFrame(sender, x.s, x.taken, items, j, sender.cuts[x.Last() + 1], a.packet, 0);
      RecordedKept(x, items, After(x, a));
    }
  }

  lemma RecordedKept(x: Session, items: seq<Item>, y: Session)
    requires Recorded(x, items) && y.taken == x.taken && y.kinds == x.kinds
    requires y.s.gotHeaderSection == x.s.gotHeaderSection
    ensures Recorded(y, items)
  {
  }

  // ---------- the guarantees, over every run of the channel ----------

  lemma {:induction false} RunInvariant(sender: Sender, run: seq<Arrival>, xs: seq<Session>)
    returns (items: seq<Item>, j: nat)
    requires sender.Valid() && IsRun(sender, run, xs) && run != []
    ensures Inv(sender, xs[|run|], items, j)
    decreases |run|
  {
    hide Inv, After, MayArrive;
    var n := |run| - 1;
    assert Step(sender, xs[n], run[n], xs[n + 1]);
    if n == 0 {
      items, j := FirstPacket(sender, run[0]);
    } else {
      items, j := RunInvariant(sender, run[..n], xs[..n + 1]);
      items, j := NextPacket(sender, xs[n], items, j, run[n]);
    }
  }

  /** Message i has arrived in full and is still held back, because nothing has come after it. */
  ghost predicate Held(sender: Sender, x: Session, i: nat)
    requires x.taken != [] && TakenOk(sender, x.taken) && i < |sender.msgs|
  {
    x.s.pending == sender.msgs[i] && sender.cuts[x.Last() + 1] == sender.Start(i + 1)
  }

  lemma MissingByte(sender: Sender, taken: seq<nat>, i: nat, x: int)
    requires i < |sender.msgs| && sender.Start(i) <= x < sender.Start(i + 1) && !Has(sender, taken, x)
    ensures !GotMessage(sender, taken, i)
  {
  }

  /** Under the invariant, message i is whole in the file or held back exactly if all of it arrived. */
  lemma ExactlyTheWholeMessages(sender: Sender, x: Session, items: seq<Item>, j: nat, i: nat)
    requires Inv(sender, x, items, j) && i < |sender.msgs|
    ensures GotMessage(sender, x.taken, i) <==> Whole(i) in items || Held(sender, x, i)
  {
    var at := sender.cuts[x.Last() + 1];
    BeforeLast(sender, x.taken);
    StartMonotone(sender, i, i + 1);
    if i < j {
      StartMonotone(sender, i, j);
      if i + 1 < j {
        StartMonotone(sender, i + 1, j);
      }
    } else if j < i || x.s.pending == [] {
      if j < i {
        StartMonotone(sender, j, i);
        if j + 1 < i {
          StartMonotone(sender, j + 1, i);
        }
      }
      NothingBeyond(sender, x.taken, at, sender.Start(i));
      MissingByte(sender, x.taken, i, sender.Start(i));
    } else if at < sender.Start(i + 1) {
      NothingBeyond(sender, x.taken, at, at);
      MissingByte(sender, x.taken, i, at);
    } else {
      MessageInStream(sender, i);
    }
  }

  /**
   Framing safety: the file is the header, then whole messages of the sender, in order, at most
   once each, with only dropout messages in between. Exactness: a message is in the file, or held
   back, exactly when every one of its bytes was in a packet that was taken; and the dropout
   messages are one for each gap between packets taken, with its length, from the first
   LOGGING_DATA packet on.
   */
  lemma FramingSafety(sender: Sender, run: seq<Arrival>, xs: seq<Session>)
    requires sender.Valid() && IsRun(sender, run, xs) && run != []
    ensures
      var x := xs[|run|];
      && x.taken != [] && TakenOk(sender, x.taken)
      && exists items: seq<Item> ::
           && FileIs(sender, x.s.file, items)
           && (forall i | 0 <= i < |sender.msgs| ::
                 GotMessage(sender, x.taken, i) <==> Whole(i) in items || Held(sender, x, i))
           && (forall k | 0 <= k < |items| && items[k].Dropout? ::
                 IsDropout(ItemBytes(sender, items[k]), items[k].drops))
           && |x.kinds| == |x.taken| && Noted(items) == Gaps(x.taken, x.kinds)
  {
    var x := xs[|run|];
    var items, j := RunInvariant(sender, run, xs);
    forall i | 0 <= i < |sender.msgs|
      ensures GotMessage(sender, x.taken, i) <==> Whole(i) in items || Held(sender, x, i)
    {
      ExactlyTheWholeMessages(sender, x, items, j, i);
    }
    forall k | 0 <= k < |items| && items[k].Dropout?
      ensures IsDropout(ItemBytes(sender, items[k]), items[k].drops)
    {
      DropoutsAreDropouts(sender, items[k].drops);
    }
    assert FileIs(sender, x.s.file, items);
  }

  lemma AppendExtends(s: State, data: seq<Byte>, offset: nat)
    ensures s.file <= Append(s, data, offset).file
  {
  }

  lemma NextGapIsRecorded(sender: Sender, x: Session, items: seq<Item>, j: nat, a: Arrival)
    requires Inv(sender, x, items, j) && MayArrive(sender, x, a)
    requires x.Last() + 1 < a.index && LoggingData in x.kinds + [a.packet.kind]
    ensures CanReceive(x, a)
    ensures exists m :: IsDropout(m, a.index - x.Last() - 1) && x.s.file + m <= After(x, a).s.file
  {
    hide IsDropout, Framed, Conserved, Process, ItemBytes;
    TakesExactlyNewer(sender, x, items, j, a);
    AfterCases(x, a);
    hide After, Newer, Drops;
    var drops := a.index - x.Last() - 1;
    PacketSupplies(sender, x.taken, a.index, a.packet);
    var s0 := Accept(Acknowledge(x.s, a.packet), a.packet, drops);
    assert s0.gotHeaderSection && s0.gotUlogHeader && s0.file == x.s.file;
    hide Inv, MayArrive, Sender.Valid, Recorded;
    MarkFirst(sender, s0, a.packet.data, a.packet.firstMessageOffset, drops);
  }

  /** A gap is recorded before anything else is written, the end of what was pending included. */
  lemma GapIsRecordedFirst(sender: Sender, run: seq<Arrival>, xs: seq<Session>, a: Arrival)
    requires sender.Valid() && IsRun(sender, run, xs) && run != []
    requires MayArrive(sender, xs[|run|], a)
    ensures
      var x := xs[|run|];
      && x.taken != [] && CanReceive(x, a)
      && (x.Last() + 1 < a.index && LoggingData in x.kinds + [a.packet.kind] ==>
            exists m :: IsDropout(m, a.index - x.Last() - 1) && x.s.file + m <= After(x, a).s.file)
  {
    var x := xs[|run|];
    var items, j := RunInvariant(sender, run, xs);
    TakesExactlyNewer(sender, x, items, j, a);
    assert x.taken != [];
    hide Inv, IsRun, MayArrive, CanReceive, After, IsDropout, Sender.Valid;
    if x.Last() + 1 < a.index && LoggingData in x.kinds + [a.packet.kind] {
      NextGapIsRecorded(sender, x, items, j, a);
    }
  }

  lemma MarkFirst(sender: Sender, s: State, data: seq<Byte>, offset: Byte, drops: nat)
    requires drops > 0 && s.gotHeaderSection && s.gotUlogHeader && |data| < 255
    ensures
      var m := ItemBytes(sender, Dropout(drops));
      IsDropout(m, drops) && s.file + m <= Process(s, data, offset, drops).file
  {
    DropoutsAreDropouts(sender, drops);
    ProcessIsAppend(s, data, offset, drops);
    AppendExtends(NoteDrops(s, drops), data, offset);
    hide Append, Process;
  }

  /** The sequence numbers of the packets that ask for an acknowledgement, in the order of arrival. */
  function Acked(run: seq<Arrival>): seq<nat> {
    if run == [] then []
    else
      var n := |run| - 1;
      Acked(run[..n]) + if run[n].packet.kind == LoggingDataAcked then [run[n].packet.sequence] else []
  }

  /** Every packet that asks for it is acknowledged, each time it arrives, and no other. */
  lemma {:induction false} EveryAckedPacketIsAcknowledged(sender: Sender, run: seq<Arrival>, xs: seq<Session>)
    requires sender.Valid() && IsRun(sender, run, xs)
    ensures xs[|run|].s.acks == Acked(run)
    decreases |run|
  {
    if run != [] {
      var n := |run| - 1;
      EveryAckedPacketIsAcknowledged(sender, run[..n], xs[..n + 1]);
      assert Step(sender, xs[n], run[n], xs[n + 1]);
      var s, p := xs[n].s, run[n].packet;
      if Newer(s, p) {
        ProcessKeepsBooks(Accept(Acknowledge(s, p), p, Drops(s, p)), p.data, p.firstMessageOffset, Drops(s, p));
      }
      hide Process, Sender.Valid, MayArrive;
    }
  }

  /**
   Over any run, across any number of 16 bit wraps: packets taken plus packets reported lost
   account for every packet up to the newest one, and the next arrival is taken exactly if it is
   newer. The exception for a first packet that is too short is never raised.
   */
  lemma EveryPacketIsAccountedFor(sender: Sender, run: seq<Arrival>, xs: seq<Session>, a: Arrival)
    requires sender.Valid() && IsRun(sender, run, xs) && run != []
    requires MayArrive(sender, xs[|run|], a)
    ensures
      var x := xs[|run|];
      && x.taken != [] && x.taken[0] == 0
      && |x.taken| + x.s.numDropouts == x.Last() + 1
      && CanReceive(x, a)
      && (After(x, a).taken != x.taken <==> a.index > x.Last())
  {
    var items, j := RunInvariant(sender, run, xs);
    TakesExactlyNewer(sender, xs[|run|], items, j, a);
  }

  lemma PrefixOfMessage(sender: Sender, pending: seq<Byte>, taken: seq<nat>, j: nat, at: nat)
    requires sender.Valid() && PendingOk(sender, pending, taken, j, at) && pending != []
    ensures j < |sender.msgs| && pending <= sender.msgs[j]
  {
    MessageInStream(sender, j);
    StartMonotone(sender, j, j + 1);
    assert sender.Stream()[sender.Start(j)..sender.Start(j + 1)][..at - sender.Start(j)] == pending;
  }

  /** As long as nothing was lost, the file and the pending bytes together are the stream so far. */
  lemma LosslessConservation(sender: Sender, run: seq<Arrival>, xs: seq<Session>)
    requires sender.Valid() && IsRun(sender, run, xs) && run != []
    requires xs[|run|].s.numDropouts == 0
    ensures
      var x := xs[|run|];
      && x.taken != [] && TakenOk(sender, x.taken)
      && sender.cuts[x.Last() + 1] <= |sender.Stream()|
      && x.s.file + x.s.pending == sender.Stream()[..sender.cuts[x.Last() + 1]]
      && (x.s.pending == [] || exists i | 0 <= i < |sender.msgs| :: x.s.pending <= sender.msgs[i])
  {
    var x := xs[|run|];
    var items, j := RunInvariant(sender, run, xs);
    if x.s.pending != [] {
      MessageInStream(sender, j);
      PrefixOfMessage(sender, x.s.pending, x.taken, j, sender.cuts[x.Last() + 1]);
    }
  }
}
