/**
 A sender that cuts a log into packets, a channel that loses, repeats and reorders them, and what
 the receiver of UlogReceiver.dfy does to a well-framed file: how losing packets, and taking the
 next one, keep it well framed.
 */
module UlogFraming {
  import opened UlogReceiver

  // ---------- the sender ----------

  /** A message of the ULog format: a 16 bit little-endian size, a type, and as many bytes. */
  ghost predicate IsMessage(m: seq<Byte>) { |m| >= 3 && |m| == 3 + m[0] as int + 256 * m[1] as int }

  /**
   A log: 16 bytes of file header, then messages. The stream is cut at the positions `cuts`:
   packet p carries the bytes from cuts[p] up to cuts[p+1] and the sequence number
   (first + p) modulo 2^16.
   */
  datatype Sender = Sender(header: seq<Byte>, msgs: seq<seq<Byte>>, cuts: seq<nat>, first: nat) {

    function Packets(): int { |cuts| - 1 }

    /** Position of message i in the stream; for i == |msgs|, the end of the stream. */
    function Start(i: nat): nat
      requires i <= |msgs|
    {
      if i == 0 then |header| else Start(i - 1) + |msgs[i - 1]|
    }

    function Flat(i: nat): (s: seq<Byte>)
      requires i <= |msgs|
      ensures |s| == Start(i)
    {
      if i == 0 then header else Flat(i - 1) + msgs[i - 1]
    }

    function Stream(): (s: seq<Byte>)
      ensures |s| == Start(|msgs|)
    {
      Flat(|msgs|)
    }

    ghost predicate Valid() {
      && |header| == 16
      && (forall i | 0 <= i < |msgs| :: IsMessage(msgs[i]))
      && |cuts| > 1 && cuts[0] == 0 && cuts[1] >= 16 && cuts[|cuts| - 1] <= |Stream()|
      && (forall p, q | 0 <= p < q < |cuts| :: cuts[p] < cuts[q])
      && (forall p | 0 <= p < Packets() :: cuts[p + 1] - cuts[p] <= 249)
    }

    ghost predicate NoStartIn(lo: int, hi: int) {
      forall i | 0 <= i <= |msgs| :: !(lo <= Start(i) < hi)
    }

    /** The offset field: distance to the first message start in the packet, or 255. */
    ghost predicate OffsetOk(p: nat, offset: Byte)
      requires p < Packets()
    {
      if p == 0 then offset == 0
      else if offset == 255 then NoStartIn(cuts[p], cuts[p + 1])
      else
        && cuts[p] + offset < cuts[p + 1]
        && NoStartIn(cuts[p], cuts[p] + offset)
        && exists i | 0 <= i <= |msgs| :: Start(i) == cuts[p] + offset
    }

    ghost predicate Sends(p: nat, packet: Packet)
      requires Valid()
    {
      && p < Packets()
      && packet.sequence == (first + p) % 65536
      && cuts[p] <= cuts[p + 1] <= |Stream()|
      && packet.data == Stream()[cuts[p]..cuts[p + 1]]
      && OffsetOk(p, packet.firstMessageOffset)
    }
  }

  // ---------- the channel ----------

  /** One arrival: which packet of the sender it was, and the packet. */
  datatype Arrival = Arrival(index: nat, packet: Packet)

  /** The receiver together with the indices and kinds of the packets it took, newest last. */
  datatype Session = Session(s: State, taken: seq<nat>, kinds: seq<Kind>) {
    function Last(): nat
      requires taken != []
    {
      taken[|taken| - 1]
    }
  }

  /** Any arrival order is allowed as long as no packet is 2^15 or more from the newest one. */
  ghost predicate MayArrive(sender: Sender, x: Session, a: Arrival)
    requires sender.Valid()
  {
    && sender.Sends(a.index, a.packet)
    && if x.taken == [] then a.index == 0 else -32768 < a.index - x.Last() < 32768
  }

  predicate CanReceive(x: Session, a: Arrival) {
    InRange(x.s, a.packet) && LongEnough(x.s, a.packet)
  }

  function After(x: Session, a: Arrival): Session
    requires CanReceive(x, a)
  {
    var s' := Receive(x.s, a.packet);
    if Newer(x.s, a.packet) then Session(s', x.taken + [a.index], x.kinds + [a.packet.kind])
    else Session(s', x.taken, x.kinds)
  }

  ghost predicate Step(sender: Sender, x: Session, a: Arrival, y: Session)
    requires sender.Valid()
  {
    MayArrive(sender, x, a) && CanReceive(x, a) && y == After(x, a)
  }

  /** `run` is a possible sequence of arrivals; `xs` are the states before, between and after them. */
  ghost predicate IsRun(sender: Sender, run: seq<Arrival>, xs: seq<Session>)
    requires sender.Valid()
  {
    && |xs| == |run| + 1
    && xs[0] == Session(INITIAL, [], [])
    && forall k | 0 <= k < |run| :: Step(sender, xs[k], run[k], xs[k + 1])
  }

  // ---------- what the file looks like ----------

  datatype Item = Whole(index: nat) | Dropout(drops: nat)

  predicate ItemOk(sender: Sender, item: Item) {
    match item
    case Whole(i) => i < |sender.msgs|
    case Dropout(n) => 0 < n
  }

  predicate ItemsOk(sender: Sender, items: seq<Item>) {
    forall k | 0 <= k < |items| :: ItemOk(sender, items[k])
  }

  function ItemBytes(sender: Sender, item: Item): seq<Byte>
    requires ItemOk(sender, item)
  {
    match item
    case Whole(i) => sender.msgs[i]
    case Dropout(n) => [2, 0, 'O' as int, 10 * (if n < 25 then n else 25), 0]
  }

  /** The ULog dropout message: type 'O', and a 16 bit duration of ten milliseconds for each of n packets, up to 25. */
  ghost predicate IsDropout(m: seq<Byte>, n: nat) {
    IsMessage(m) && |m| == 5 && m[2] == 79 && m[3] as int + 256 * m[4] as int == if n < 25 then 10 * n else 250
  }

  lemma DropoutsAreDropouts(sender: Sender, n: nat)
    requires n > 0
    ensures ItemBytes(sender, Dropout(n)) == DropoutMessage(n)
    ensures IsDropout(ItemBytes(sender, Dropout(n)), n)
  {
  }

  /** The losses that the file records, in order. */
  function Noted(items: seq<Item>): seq<nat> {
    if items == [] then []
    else
      var n := |items| - 1;
      Noted(items[..n]) + if items[n].Dropout? then [items[n].drops] else []
  }

  lemma NotedOneMore(items: seq<Item>, item: Item)
    ensures Noted(items + [item]) == Noted(items) + if item.Dropout? then [item.drops] else []
  {
    assert (items + [item])[..|items|] == items;
  }

  /** The gaps between packets taken, as far as a LOGGING_DATA packet had been taken by the time they were noticed. */
  ghost function Gaps(taken: seq<nat>, kinds: seq<Kind>): seq<nat>
    requires |kinds| == |taken|
  {
    if |taken| <= 1 then []
    else
      var n := |taken| - 1;
      var gap := taken[n] as int - taken[n - 1] as int - 1;
      Gaps(taken[..n], kinds[..n]) + if gap > 0 && LoggingData in kinds then [gap] else []
  }

  lemma GapsOneMore(taken: seq<nat>, kinds: seq<Kind>, p: nat, kind: Kind)
    requires |kinds| == |taken| && taken != []
    ensures
      var gap := p as int - taken[|taken| - 1] as int - 1;
      Gaps(taken + [p], kinds + [kind])
      == Gaps(taken, kinds) + if gap > 0 && LoggingData in kinds + [kind] then [gap] else []
  {
    assert (taken + [p])[..|taken|] == taken && (kinds + [kind])[..|kinds|] == kinds;
  }

  function Render(sender: Sender, items: seq<Item>): seq<Byte>
    requires ItemsOk(sender, items)
  {
    if items == [] then []
    else Render(sender, items[..|items| - 1]) + ItemBytes(sender, items[|items| - 1])
  }

  /** Messages are in the sender's order, each at most once. */
  ghost predicate InOrder(items: seq<Item>) {
    forall a, b | 0 <= a < b < |items| && items[a].Whole? && items[b].Whole? ::
      items[a].index < items[b].index
  }

  ghost predicate Below(items: seq<Item>, j: nat) {
    forall k | 0 <= k < |items| && items[k].Whole? :: items[k].index < j
  }

  ghost predicate FileIs(sender: Sender, file: seq<Byte>, items: seq<Item>) {
    && ItemsOk(sender, items)
    && InOrder(items)
    && file == sender.header + Render(sender, items)
  }

  /** Byte x of the stream was in a packet that the receiver took. */
  ghost predicate Has(sender: Sender, taken: seq<nat>, x: int) {
    exists p :: p in taken && p < sender.Packets() && sender.cuts[p] <= x < sender.cuts[p + 1]
  }

  ghost predicate HasAll(sender: Sender, taken: seq<nat>, lo: int, hi: int) {
    forall x | lo <= x < hi :: Has(sender, taken, x)
  }

  ghost predicate GotMessage(sender: Sender, taken: seq<nat>, i: nat)
    requires i < |sender.msgs|
  {
    HasAll(sender, taken, sender.Start(i), sender.Start(i + 1))
  }

  // ---------- sequence numbers ----------

  /** Within 2^15, the 16 bit comparison decides exactly as the true counters do. */
  lemma SequenceNumbersRefineCounters(last: nat, next: nat)
    requires -HALF < next - last < HALF
    ensures CheckSequence(last % SEQUENCES, next % SEQUENCES)
            == (next > last, if next > last then next - last - 1 else 0)
  {
    var a, b := last % SEQUENCES, next % SEQUENCES;
    var q, r := last / SEQUENCES, next / SEQUENCES;
    assert last == q * SEQUENCES + a && next == r * SEQUENCES + b;
    assert -1 <= r - q <= 1;
  }

  /** At a distance of exactly 2^15 the answer depends only on which side of a wrap the numbers lie. */
  lemma HalfRangeIsAmbiguous(last: nat, next: nat)
    requires next - last == HALF || last - next == HALF
    ensures CheckSequence(last % SEQUENCES, next % SEQUENCES).0 <==> next % SEQUENCES > last % SEQUENCES
  {
    var q, r := last / SEQUENCES, next / SEQUENCES;
    assert last == q * SEQUENCES + last % SEQUENCES && next == r * SEQUENCES + next % SEQUENCES;
    assert -1 <= r - q <= 1;
  }

  // ---------- the stream ----------

  lemma StartMonotone(sender: Sender, i: nat, j: nat)
    requires sender.Valid()
    requires i < j <= |sender.msgs|
    ensures sender.Start(i) + 3 <= sender.Start(j)
  {
    if i + 1 < j {
      StartMonotone(sender, i, j - 1);
    }
  }

  lemma FlatPrefix(sender: Sender, i: nat, j: nat)
    requires i <= j <= |sender.msgs|
    ensures sender.Start(i) <= sender.Start(j)
    ensures sender.Flat(j)[..sender.Start(i)] == sender.Flat(i)
  {
    if i < j {
      FlatPrefix(sender, i, j - 1);
    }
  }

  lemma MessageInStream(sender: Sender, i: nat)
    requires i < |sender.msgs|
    ensures sender.Start(i) <= sender.Start(i + 1) <= |sender.Stream()|
    ensures sender.Stream()[sender.Start(i)..sender.Start(i + 1)] == sender.msgs[i]
  {
    FlatPrefix(sender, i + 1, |sender.msgs|);
    var f := sender.Flat(i + 1);
    assert f == sender.Flat(i) + sender.msgs[i];
    assert sender.Stream()[sender.Start(i)..sender.Start(i + 1)] == f[sender.Start(i)..];
  }

  /** The first message start at or after a position. */
  lemma FirstStartFrom(sender: Sender, i: nat, at: nat) returns (t: nat)
    requires sender.Valid()
    requires i <= |sender.msgs| && at <= |sender.Stream()|
    ensures i <= t <= |sender.msgs| && at <= sender.Start(t)
    ensures i < t ==> sender.Start(t - 1) < at
    decreases |sender.msgs| - i
  {
    t := i;
    while sender.Start(t) < at
      invariant i <= t <= |sender.msgs|
      invariant i < t ==> sender.Start(t - 1) < at
    {
      t := t + 1;
    }
  }

  /** A cut-off message at the end of the data has no whole message in it. */
  lemma CutMessageHasNoWhole(sender: Sender, i: nat, hi: nat)
    requires sender.Valid()
    requires i < |sender.msgs| && sender.Start(i) <= hi < sender.Start(i + 1) <= |sender.Stream()|
    ensures WholeBytes(sender.Stream()[sender.Start(i)..hi]) == 0
  {
    MessageInStream(sender, i);
    var lo := sender.Start(i);
    var data := sender.Stream()[lo..hi];
    if |data| > 2 {
      var m := sender.msgs[i];
      assert data[0] == sender.Stream()[lo] == m[0];
      assert data[1] == sender.Stream()[lo + 1] == m[1];
    }
  }

  /** Splitting off whole messages from a message start stops at the last boundary before `hi`. */
  lemma HeadOfSlice<T>(s: seq<T>, a: nat, b: nat, c: nat)
    requires a + 3 <= b <= c <= |s|
    ensures s[a..c][0] == s[a..b][0] && s[a..c][1] == s[a..b][1] && s[a..c][b - a..] == s[b..c]
  {
  }

  /** Data that begins with message t: one whole message, and then what follows it. */
  lemma WholeMessageFirst(sender: Sender, t: nat, hi: nat)
    requires sender.Valid() && t < |sender.msgs| && sender.Start(t + 1) <= hi <= |sender.Stream()|
    ensures sender.Start(t) <= sender.Start(t + 1)
    ensures WholeBytes(sender.Stream()[sender.Start(t)..hi])
            == sender.Start(t + 1) - sender.Start(t) + WholeBytes(sender.Stream()[sender.Start(t + 1)..hi])
  {
    MessageInStream(sender, t);
    assert IsMessage(sender.msgs[t]);
    HeadOfSlice(sender.Stream(), sender.Start(t), sender.Start(t + 1), hi);
    hide Sender.Stream, Sender.Valid;
  }

  lemma WholeBytesFollowsBoundaries(sender: Sender, t: nat, hi: nat) returns (j: nat)
    requires sender.Valid()
    requires t <= |sender.msgs| && sender.Start(t) <= hi <= |sender.Stream()|
    ensures t <= j <= |sender.msgs| && sender.Start(t) <= sender.Start(j) <= hi
    ensures j < |sender.msgs| ==> hi < sender.Start(j + 1)
    ensures j == |sender.msgs| ==> sender.Start(j) == hi
    ensures WholeBytes(sender.Stream()[sender.Start(t)..hi]) == sender.Start(j) - sender.Start(t)
    decreases |sender.msgs| - t
  {
    var data := sender.Stream()[sender.Start(t)..hi];
    if t == |sender.msgs| {
      j := t;
      assert data == [];
    } else if hi < sender.Start(t + 1) {
      j := t;
      MessageInStream(sender, t);
      CutMessageHasNoWhole(sender, t, hi);
    } else {
      WholeMessageFirst(sender, t, hi);
      hide WholeBytes, Sender.Stream;
      j := WholeBytesFollowsBoundaries(sender, t + 1, hi);
    }
  }

  lemma RenderOneMore(sender: Sender, items: seq<Item>, item: Item)
    requires ItemsOk(sender, items) && ItemOk(sender, item)
    ensures ItemsOk(sender, items + [item])
    ensures Render(sender, items + [item]) == Render(sender, items) + ItemBytes(sender, item)
  {
    assert (items + [item])[..|items|] == items;
  }

  lemma SliceSplit<T>(s: seq<T>, a: nat, b: nat, c: nat)
    requires a <= b <= c <= |s|
    ensures s[a..c][..b - a] == s[a..b] && s[a..c][b - a..] == s[b..c]
  {
  }

  lemma SliceJoin<T>(s: seq<T>, a: nat, b: nat, c: nat)
    requires a <= b <= c <= |s|
    ensures s[a..b] + s[b..c] == s[a..c]
  {
  }

  // ---------- the framing invariant ----------

  /** A byte of message i before position `at` never arrived. */
  ghost predicate Lost(sender: Sender, taken: seq<nat>, i: nat, at: int)
    requires i < |sender.msgs|
  {
    exists x :: sender.Start(i) <= x < sender.Start(i + 1) && x < at && !Has(sender, taken, x)
  }

  /** Every message before message j is settled: whole in the file, or a part of it is gone. */
  ghost predicate Settled(sender: Sender, taken: seq<nat>, items: seq<Item>, j: nat, at: int) {
    && j <= |sender.msgs|
    && Below(items, j)
    && forall i | 0 <= i < j ::
         if Whole(i) in items then sender.Start(i + 1) <= at && GotMessage(sender, taken, i)
         else Lost(sender, taken, i, at)
  }

  /** The pending bytes are the received part, possibly all, of message j. */
  ghost predicate PendingOk(sender: Sender, pending: seq<Byte>, taken: seq<nat>, j: nat, at: nat) {
    && j <= |sender.msgs|
    && at <= |sender.Stream()|
    && if pending == [] then at <= sender.Start(j) && (j > 0 ==> sender.Start(j - 1) < at)
       else
         && j < |sender.msgs| && sender.Start(j) < at <= sender.Start(j + 1)
         && pending == sender.Stream()[sender.Start(j)..at]
         && HasAll(sender, taken, sender.Start(j), at)
  }

  /** The receiver has dealt with the stream up to position `at`. */
  ghost predicate Framed(sender: Sender, s: State, taken: seq<nat>, items: seq<Item>, j: nat, at: nat) {
    && FileIs(sender, s.file, items)
    && Settled(sender, taken, items, j, at)
    && PendingOk(sender, s.pending, taken, j, at)
  }

  ghost predicate TakenOk(sender: Sender, taken: seq<nat>) {
    && (forall a, b | 0 <= a < b < |taken| :: taken[a] < taken[b])
    && forall a | 0 <= a < |taken| :: taken[a] < sender.Packets()
  }

  /** None of the packets taken reaches position `at`. */
  ghost predicate Before(sender: Sender, taken: seq<nat>, at: int) {
    forall p | p in taken && p < sender.Packets() :: sender.cuts[p + 1] <= at
  }

  lemma NothingBeyond(sender: Sender, taken: seq<nat>, at: int, x: int)
    requires Before(sender, taken, at) && at <= x
    ensures !Has(sender, taken, x)
  {
  }

  // ---------- losing packets ----------

  /** Messages that begin before `to` and are not over at `at` lose a byte when the gap is skipped. */
  lemma GapLosesMessage(sender: Sender, taken: seq<nat>, i: nat, at: nat, to: nat)
    requires sender.Valid() && i < |sender.msgs|
    requires Before(sender, taken, at) && at < to
    requires sender.Start(i) < to && at < sender.Start(i + 1)
    ensures Lost(sender, taken, i, to)
  {
    StartMonotone(sender, i, i + 1);
    var x := if sender.Start(i) < at then at else sender.Start(i);
    NothingBeyond(sender, taken, at, x);
  }

  lemma SettledLater(sender: Sender, taken: seq<nat>, items: seq<Item>, j: nat, at: nat, to: nat)
    requires Settled(sender, taken, items, j, at) && at <= to
    ensures Settled(sender, taken, items, j, to)
  {
  }

  lemma SettleLost(sender: Sender, taken: seq<nat>, items: seq<Item>, j: nat, t: nat, at: nat, to: nat)
    requires sender.Valid()
    requires Before(sender, taken, at) && at < to
    requires Settled(sender, taken, items, j, to)
    requires j <= t <= |sender.msgs|
    requires j < t ==> sender.Start(t - 1) < to && at < sender.Start(j + 1)
    ensures Settled(sender, taken, items, t, to)
  {
    forall i | j <= i < t
      ensures Whole(i) !in items && Lost(sender, taken, i, to)
    {
      if j < i {
        StartMonotone(sender, j + 1, i + 1);
      }
      if i < t - 1 {
        StartMonotone(sender, i, t - 1);
      }
      GapLosesMessage(sender, taken, i, at, to);
    }
  }

  lemma SettleWhole(sender: Sender, taken: seq<nat>, items: seq<Item>, j: nat, at: nat)
    requires Settled(sender, taken, items, j, at) && InOrder(items)
    requires j < |sender.msgs| && sender.Start(j + 1) <= at && GotMessage(sender, taken, j)
    ensures Settled(sender, taken, items + [Whole(j)], j + 1, at)
    ensures InOrder(items + [Whole(j)])
    ensures Noted(items + [Whole(j)]) == Noted(items)
  {
    NotedOneMore(items, Whole(j));
    hide Noted;
    var more := items + [Whole(j)];
    assert more[|items|] == Whole(j);
    forall i | 0 <= i < j
      ensures Whole(i) in more <==> Whole(i) in items
    {
    }
  }

  lemma AddDropout(sender: Sender, taken: seq<nat>, items: seq<Item>, j: nat, at: nat, n: nat)
    requires Settled(sender, taken, items, j, at) && InOrder(items)
    ensures Settled(sender, taken, items + [Dropout(n)], j, at)
    ensures InOrder(items + [Dropout(n)])
    ensures Noted(items + [Dropout(n)]) == Noted(items) + [n]
  {
    NotedOneMore(items, Dropout(n));
    hide Noted;
    forall i | 0 <= i < j
      ensures Whole(i) in items + [Dropout(n)] <==> Whole(i) in items
    {
    }
  }

  lemma Regroup<T>(a: seq<T>, b: seq<T>, c: seq<T>)
    ensures a + b + c == a + (b + c)
  {
  }

  lemma ExtendFile(sender: Sender, file: seq<Byte>, items: seq<Item>, item: Item)
    requires FileIs(sender, file, items) && ItemOk(sender, item) && InOrder(items + [item])
    ensures FileIs(sender, file + ItemBytes(sender, item), items + [item])
  {
    RenderOneMore(sender, items, item);
    hide Render, ItemsOk, ItemBytes, InOrder;
    Regroup(sender.header, Render(sender, items), ItemBytes(sender, item));
  }

  lemma MessageIsWhole(m: seq<Byte>)
    requires |m| > 2 && MessageLength(m) == |m|
    ensures m[..WholeBytes(m)] == m
  {
    assert m[|m|..] == [];
  }

  /** Of the pending bytes, all are whole messages if message j is complete, and none otherwise. */
  lemma WholePending(sender: Sender, pending: seq<Byte>, taken: seq<nat>, j: nat, at: nat)
    requires sender.Valid() && PendingOk(sender, pending, taken, j, at)
    ensures pending[..WholeBytes(pending)]
            == if j < |sender.msgs| && at == sender.Start(j + 1) then sender.msgs[j] else []
  {
    if j < |sender.msgs| {
      MessageInStream(sender, j);
      StartMonotone(sender, j, j + 1);
      if pending != [] && at == sender.Start(j + 1) {
        MessageIsWhole(pending);
      } else if pending != [] {
        CutMessageHasNoWhole(sender, j, at);
      }
    }
  }

  /** Message j is pending, and all of it is there. */
  predicate PendingIsWhole(sender: Sender, j: nat, at: nat) {
    j < |sender.msgs| && at == sender.Start(j + 1)
  }

  /** A whole pending message is written. */
  lemma FlushWhole(sender: Sender, s: State, taken: seq<nat>, items: seq<Item>, j: nat, at: nat)
    requires sender.Valid() && Framed(sender, s, taken, items, j, at) && PendingIsWhole(sender, j, at)
    ensures FileIs(sender, s.file + s.pending[..WholeBytes(s.pending)], items + [Whole(j)])
    ensures Settled(sender, taken, items + [Whole(j)], j + 1, at)
    ensures Noted(items + [Whole(j)]) == Noted(items)
  {
    hide Noted;
    WholePending(sender, s.pending, taken, j, at);
    PendingBounds(sender, s.pending, taken, j, at);
    assert InOrder(items) && GotMessage(sender, taken, j);
    hide WholeBytes, FileIs, Settled, PendingOk, InOrder, GotMessage;
    SettleWhole(sender, taken, items, j, at);
    ExtendFile(sender, s.file, items, Whole(j));
  }

  /** A cut pending message is not. */
  lemma FlushCut(sender: Sender, s: State, taken: seq<nat>, items: seq<Item>, j: nat, at: nat)
    requires sender.Valid() && Framed(sender, s, taken, items, j, at) && !PendingIsWhole(sender, j, at)
    ensures FileIs(sender, s.file + s.pending[..WholeBytes(s.pending)], items)
  {
    WholePending(sender, s.pending, taken, j, at);
    hide WholeBytes, FileIs, Settled, PendingOk;
    assert s.file + [] == s.file;
  }

  /** What happens to the pending bytes when packets went missing: written if whole, else discarded. */
  lemma FlushPending(sender: Sender, s: State, taken: seq<nat>, items: seq<Item>, j: nat, at: nat)
    returns (items': seq<Item>, j': nat)
    requires sender.Valid() && Framed(sender, s, taken, items, j, at)
    ensures FileIs(sender, s.file + s.pending[..WholeBytes(s.pending)], items')
    ensures Settled(sender, taken, items', j', at)
    ensures j' > 0 ==> sender.Start(j' - 1) < at
    ensures j' < |sender.msgs| ==> at < sender.Start(j' + 1)
    ensures Noted(items') == Noted(items)
  {
    hide Noted;
    hide WholeBytes, FileIs, Settled, Sender.Valid, Sender.Start, Sender.Stream;
    PendingBounds(sender, s.pending, taken, j, at);
    hide PendingOk, Framed;
    if PendingIsWhole(sender, j, at) {
      FlushWhole(sender, s, taken, items, j, at);
      items', j' := items + [Whole(j)], j + 1;
    } else {
      FlushCut(sender, s, taken, items, j, at);
      items', j' := items, j;
    }
  }

  lemma PendingBounds(sender: Sender, pending: seq<Byte>, taken: seq<nat>, j: nat, at: nat)
    requires sender.Valid() && PendingOk(sender, pending, taken, j, at)
    ensures j > 0 ==> sender.Start(j - 1) < at
    ensures j < |sender.msgs| ==> at <= sender.Start(j + 1)
    ensures j < |sender.msgs| && at == sender.Start(j + 1) ==> pending != [] && sender.Start(j) < at
    ensures j + 1 < |sender.msgs| ==> sender.Start(j + 1) < sender.Start(j + 2)
  {
    if j > 0 {
      StartMonotone(sender, j - 1, j);
    }
    if j < |sender.msgs| {
      StartMonotone(sender, j, j + 1);
    }
    if j + 1 < |sender.msgs| {
      StartMonotone(sender, j + 1, j + 2);
    }
  }

  /** What the receiver writes to record the loss. */
  function Mark(s: State, drops: nat): seq<Byte>
    requires drops > 0
  {
    if s.gotHeaderSection then DropoutMessage(drops) else []
  }

  /** Recording a loss. */
  lemma Marking(sender: Sender, s: State, taken: seq<nat>, items: seq<Item>, j: nat, at: nat, drops: nat)
    returns (items': seq<Item>)
    requires Framed(sender, s, taken, items, j, at) && drops > 0
    ensures Framed(sender, s.(file := s.file + Mark(s, drops)), taken, items', j, at)
    ensures Noted(items') == Noted(items) + if s.gotHeaderSection then [drops] else []
  {
    assert InOrder(items);
    hide Noted, FileIs, Settled, PendingOk, InOrder;
    if s.gotHeaderSection {
      items' := items + [Dropout(drops)];
      AddDropout(sender, taken, items, j, at, drops);
      DropoutsAreDropouts(sender, drops);
      ExtendFile(sender, s.file, items, Dropout(drops));
    } else {
      items' := items;
      assert s.file + [] == s.file;
    }
  }

  /** The pending bytes are written if whole, else discarded, and the gap is skipped. */
  lemma Skipping(sender: Sender, s: State, taken: seq<nat>, items: seq<Item>, j: nat, at: nat, to: nat)
    returns (items': seq<Item>, j': nat)
    requires sender.Valid() && Framed(sender, s, taken, items, j, at)
    requires Before(sender, taken, at) && at < to <= |sender.Stream()|
    ensures Framed(sender, s.(file := s.file + s.pending[..WholeBytes(s.pending)], pending := []), taken, items', j', to)
    ensures Noted(items') == Noted(items)
  {
    hide Noted, FileIs, Settled, Before, WholeBytes, Sender.Valid, Sender.Stream;
    var k: nat;
    items', k := FlushPending(sender, s, taken, items, j, at);
    SettledBound(sender, taken, items', k, at);
    j' := FirstStartFrom(sender, k, to);
    SettledLater(sender, taken, items', k, at, to);
    SettleLost(sender, taken, items', k, j', at, to);
  }

  lemma SettledBound(sender: Sender, taken: seq<nat>, items: seq<Item>, j: nat, at: int)
    requires Settled(sender, taken, items, j, at)
    ensures j <= |sender.msgs|
  {
  }

  lemma NoteDropsIs(s: State, drops: nat)
    requires drops > 0
    ensures
      var marked := s.(file := s.file + Mark(s, drops));
      NoteDrops(s, drops) == marked.(file := marked.file + marked.pending[..WholeBytes(marked.pending)], pending := [])
  {
  }

  /** Packets were lost: from position `at` the receiver moves on to position `to` with nothing pending. */
  lemma LosingPackets(sender: Sender, s: State, taken: seq<nat>, items: seq<Item>, j: nat,
                      at: nat, to: nat, drops: nat)
    returns (items': seq<Item>, j': nat)
    requires sender.Valid() && Framed(sender, s, taken, items, j, at)
    requires Before(sender, taken, at) && at < to <= |sender.Stream()|
    requires drops > 0
    ensures Framed(sender, NoteDrops(s, drops), taken, items', j', to)
    ensures Noted(items') == Noted(items) + if s.gotHeaderSection then [drops] else []
  {
    hide Framed, Noted, Before, Sender.Valid, Sender.Stream, NoteDrops, Mark, WholeBytes;
    NoteDropsIs(s, drops);
    var items1 := Marking(sender, s, taken, items, j, at, drops);
    items', j' := Skipping(sender, s.(file := s.file + Mark(s, drops)), taken, items1, j, at, to);
  }

  // ---------- a packet's data ----------

  /** The offset field as seen from position `at`, where the packet's data begins. */
  ghost predicate OffsetAt(sender: Sender, at: nat, to: nat, offset: Byte) {
    if offset == NO_MESSAGE_START then sender.NoStartIn(at, to)
    else
      && at + offset <= to
      && sender.NoStartIn(at, at + offset)
      && exists i | 0 <= i <= |sender.msgs| :: sender.Start(i) == at + offset
  }

  /** Packet p supplies the bytes from `at` to `to`; for packet 0 these follow the file header. */
  ghost predicate Supplies(sender: Sender, taken: seq<nat>, p: nat, at: nat, to: nat) {
    && p < sender.Packets()
    && at <= to == sender.cuts[p + 1] <= |sender.Stream()|
    && to - at <= 249
    && (sender.cuts[p] == at || (sender.cuts[p] <= at == 16))
    && Before(sender, taken, at)
  }

  lemma HasMore(sender: Sender, taken: seq<nat>, p: nat, x: int)
    ensures Has(sender, taken, x) ==> Has(sender, taken + [p], x)
    ensures p < sender.Packets() && sender.cuts[p] <= x < sender.cuts[p + 1] ==> Has(sender, taken + [p], x)
    ensures Has(sender, taken + [p], x) ==>
              Has(sender, taken, x) || (p < sender.Packets() && sender.cuts[p] <= x < sender.cuts[p + 1])
  {
    assert p in taken + [p];
  }

  /** Settled messages stay settled: nothing that was missing can still turn up. */
  lemma SettledTakes(sender: Sender, taken: seq<nat>, items: seq<Item>, j: nat, p: nat, at: nat, to: nat)
    requires sender.Valid() && Supplies(sender, taken, p, at, to)
    requires Settled(sender, taken, items, j, at)
    ensures Settled(sender, taken + [p], items, j, to)
  {
    forall i | 0 <= i < j
      ensures if Whole(i) in items then sender.Start(i + 1) <= to && GotMessage(sender, taken + [p], i)
              else Lost(sender, taken + [p], i, to)
    {
      if Whole(i) in items {
        forall x | sender.Start(i) <= x < sender.Start(i + 1)
          ensures Has(sender, taken + [p], x)
        {
          HasMore(sender, taken, p, x);
        }
      } else {
        var x :| sender.Start(i) <= x < sender.Start(i + 1) && x < at && !Has(sender, taken, x);
        HasMore(sender, taken, p, x);
        FlatPrefix(sender, 0, i);
      }
    }
  }

  lemma InPacket(sender: Sender, taken: seq<nat>, p: nat, at: nat, to: nat, lo: nat, hi: nat)
    requires Supplies(sender, taken, p, at, to)
    requires at <= lo && hi <= to
    ensures HasAll(sender, taken + [p], lo, hi)
  {
    forall x | lo <= x < hi
      ensures Has(sender, taken + [p], x)
    {
      HasMore(sender, taken, p, x);
    }
  }

  lemma HasAllMore(sender: Sender, taken: seq<nat>, p: nat, lo: int, hi: int)
    requires HasAll(sender, taken, lo, hi)
    ensures HasAll(sender, taken + [p], lo, hi)
  {
    forall x | lo <= x < hi
      ensures Has(sender, taken + [p], x)
    {
      HasMore(sender, taken, p, x);
    }
  }

  lemma HasAllPart(sender: Sender, taken: seq<nat>, lo: int, hi: int, a: int, b: int)
    requires HasAll(sender, taken, lo, hi) && lo <= a && b <= hi
    ensures HasAll(sender, taken, a, b)
  {
  }

  lemma HasAllJoin(sender: Sender, taken: seq<nat>, lo: int, mid: int, hi: int)
    requires HasAll(sender, taken, lo, mid) && HasAll(sender, taken, mid, hi)
    ensures HasAll(sender, taken, lo, hi)
  {
  }

  lemma WriteOne(sender: Sender, file: seq<Byte>, taken: seq<nat>, items: seq<Item>, t: nat, to: nat)
    requires FileIs(sender, file, items) && Settled(sender, taken, items, t, to)
    requires t < |sender.msgs| && sender.Start(t + 1) <= to && GotMessage(sender, taken, t)
    ensures FileIs(sender, file + sender.msgs[t], items + [Whole(t)])
    ensures Settled(sender, taken, items + [Whole(t)], t + 1, to)
    ensures Noted(items + [Whole(t)]) == Noted(items)
  {
    hide Noted;
    SettleWhole(sender, taken, items, t, to);
    ExtendFile(sender, file, items, Whole(t));
  }

  /** Messages t to k-1 cut out of the stream begin with message t. */
  lemma StreamHead(sender: Sender, file: seq<Byte>, t: nat, k: nat)
    requires t < k <= |sender.msgs|
    ensures sender.Start(t) <= sender.Start(t + 1) <= sender.Start(k) <= |sender.Stream()|
    ensures file + sender.msgs[t] + sender.Stream()[sender.Start(t + 1)..sender.Start(k)]
            == file + sender.Stream()[sender.Start(t)..sender.Start(k)]
  {
    FlatPrefix(sender, t + 1, k);
    FlatPrefix(sender, k, |sender.msgs|);
    MessageInStream(sender, t);
    SliceJoin(sender.Stream(), sender.Start(t), sender.Start(t + 1), sender.Start(k));
  }

  /** Writing the messages t to k-1 of the stream, all of them received. */
  lemma {:induction false} WriteWholes(sender: Sender, file: seq<Byte>, taken: seq<nat>, items: seq<Item>,
                                       t: nat, k: nat, to: nat)
    returns (items': seq<Item>)
    requires FileIs(sender, file, items) && Settled(sender, taken, items, t, to)
    requires t <= k <= |sender.msgs| && sender.Start(t) <= sender.Start(k) <= to <= |sender.Stream()|
    requires HasAll(sender, taken, sender.Start(t), sender.Start(k))
    ensures FileIs(sender, file + sender.Stream()[sender.Start(t)..sender.Start(k)], items')
    ensures Settled(sender, taken, items', k, to)
    ensures Noted(items') == Noted(items)
    decreases k - t
  {
    hide Noted;
    if t == k {
      items' := items;
      assert file + [] == file;
    } else {
      StreamHead(sender, file, t, k);
      WriteOne(sender, file, taken, items, t, to);
      items' := WriteWholes(sender, file + sender.msgs[t], taken, items + [Whole(t)], t + 1, k, to);
    }
  }

  /** Data from the start of message t on: whole messages are written, the rest is kept. */
  lemma WriteFromStart(sender: Sender, file: seq<Byte>, taken: seq<nat>, items: seq<Item>, t: nat, to: nat)
    returns (items': seq<Item>, j': nat)
    requires sender.Valid() && FileIs(sender, file, items) && Settled(sender, taken, items, t, to)
    requires t <= |sender.msgs| && sender.Start(t) <= to <= |sender.Stream()|
    requires HasAll(sender, taken, sender.Start(t), to)
    ensures
      var rest := sender.Stream()[sender.Start(t)..to];
      var n := WholeBytes(rest);
      && FileIs(sender, file + rest[..n], items')
      && Settled(sender, taken, items', j', to)
      && PendingOk(sender, rest[n..], taken, j', to)
    ensures Noted(items') == Noted(items)
  {
    hide Noted;
    hide FileIs, Settled, WholeBytes, Sender.Valid, Sender.Stream, HasAll;
    j' := WholeBytesFollowsBoundaries(sender, t, to);
    HasAllPart(sender, taken, sender.Start(t), to, sender.Start(t), sender.Start(j'));
    HasAllPart(sender, taken, sender.Start(t), to, sender.Start(j'), to);
    items' := WriteWholes(sender, file, taken, items, t, j', to);
    SliceSplit(sender.Stream(), sender.Start(t), sender.Start(j'), to);
    if j' > 0 {
      StartMonotone(sender, j' - 1, j');
    }
  }

  /** The packet has no message start: its data belongs to message j, or to a lost one. */
  lemma TakingMiddle(sender: Sender, s: State, taken: seq<nat>, items: seq<Item>, j: nat,
                     p: nat, at: nat, to: nat)
    requires sender.Valid() && Framed(sender, s, taken, items, j, at)
    requires Supplies(sender, taken, p, at, to)
    requires sender.NoStartIn(at, to)
    ensures Framed(sender, Append(s, sender.Stream()[at..to], NO_MESSAGE_START), taken + [p], items, j, to)
  {
    SettledTakes(sender, taken, items, j, p, at, to);
    if s.pending == [] {
      assert s.file + [] + [] == s.file;
    } else {
      SliceJoin(sender.Stream(), sender.Start(j), at, to);
      HasAllMore(sender, taken, p, sender.Start(j), at);
      InPacket(sender, taken, p, at, to, at, to);
      HasAllJoin(sender, taken + [p], sender.Start(j), at, to);
    }
  }

  /** The first message start at or after `at` is the one that follows what is pending. */
  lemma StartIsNext(sender: Sender, pending: seq<Byte>, taken: seq<nat>, j: nat, at: nat, t: nat)
    requires sender.Valid() && PendingOk(sender, pending, taken, j, at)
    requires t <= |sender.msgs| && at <= sender.Start(t) && sender.NoStartIn(at, sender.Start(t))
    ensures t == if pending == [] then j else j + 1
  {
    var next := if pending == [] then j else j + 1;
    if t < next {
      if t < next - 1 {
        StartMonotone(sender, t, next - 1);
      }
    } else if next < t {
      StartMonotone(sender, next, t);
    }
  }

  /** A message start completes the pending message, if there is one. */
  lemma CloseMessage(sender: Sender, s: State, taken: seq<nat>, items: seq<Item>, j: nat,
                     p: nat, at: nat, to: nat, t: nat)
    returns (items': seq<Item>)
    requires sender.Valid() && Framed(sender, s, taken, items, j, at)
    requires Supplies(sender, taken, p, at, to)
    requires t <= |sender.msgs| && at <= sender.Start(t) <= to && sender.NoStartIn(at, sender.Start(t))
    ensures t == if s.pending == [] then j else j + 1
    ensures
      var closed := if s.pending == [] then [] else s.pending + sender.Stream()[at..sender.Start(t)];
      FileIs(sender, s.file + closed, items')
    ensures Settled(sender, taken + [p], items', t, to)
    ensures Noted(items') == Noted(items)
  {
    hide Noted;
    StartIsNext(sender, s.pending, taken, j, at, t);
    SettledTakes(sender, taken, items, j, p, at, to);
    if s.pending == [] {
      items' := items;
      assert s.file + [] == s.file;
    } else {
      items' := items + [Whole(j)];
      SliceJoin(sender.Stream(), sender.Start(j), at, sender.Start(t));
      MessageInStream(sender, j);
      HasAllMore(sender, taken, p, sender.Start(j), at);
      InPacket(sender, taken, p, at, to, at, sender.Start(t));
      HasAllJoin(sender, taken + [p], sender.Start(j), at, sender.Start(t));
      WriteOne(sender, s.file, taken + [p], items, j, to);
    }
  }

  /** Append for a packet that has a message start, in terms of positions in the stream. */
  lemma AppendFromStart(sender: Sender, s: State, at: nat, to: nat, start: nat)
    requires at <= start <= to <= |sender.Stream()| && to - at <= 249
    ensures
      var closed := if s.pending == [] then [] else s.pending + sender.Stream()[at..start];
      var rest := sender.Stream()[start..to];
      var n := WholeBytes(rest);
      Append(s, sender.Stream()[at..to], start - at) == s.(file := s.file + closed + rest[..n], pending := rest[n..])
  {
    SliceSplit(sender.Stream(), at, start, to);
  }

  lemma TakingStart(sender: Sender, s: State, taken: seq<nat>, items: seq<Item>, j: nat,
                    p: nat, at: nat, to: nat, t: nat)
    returns (items': seq<Item>, j': nat)
    requires sender.Valid() && Framed(sender, s, taken, items, j, at)
    requires Supplies(sender, taken, p, at, to)
    requires t <= |sender.msgs| && at <= sender.Start(t) <= to && sender.NoStartIn(at, sender.Start(t))
    ensures Framed(sender, Append(s, sender.Stream()[at..to], sender.Start(t) - at), taken + [p], items', j', to)
    ensures Noted(items') == Noted(items)
  {
    hide Noted, FileIs, Settled, PendingOk, HasAll, WholeBytes, Append, Sender.Valid, Sender.Stream;
    var closed := if s.pending == [] then [] else s.pending + sender.Stream()[at..sender.Start(t)];
    var items1 := CloseMessage(sender, s, taken, items, j, p, at, to, t);
    InPacket(sender, taken, p, at, to, sender.Start(t), to);
    items', j' := WriteFromStart(sender, s.file + closed, taken + [p], items1, t, to);
    AppendFromStart(sender, s, at, to, sender.Start(t));
  }

  lemma TakingPacket(sender: Sender, s: State, taken: seq<nat>, items: seq<Item>, j: nat,
                     p: nat, at: nat, to: nat, offset: Byte)
    returns (items': seq<Item>, j': nat)
    requires sender.Valid() && Framed(sender, s, taken, items, j, at)
    requires Supplies(sender, taken, p, at, to) && OffsetAt(sender, at, to, offset)
    ensures Framed(sender, Append(s, sender.Stream()[at..to], offset), taken + [p], items', j', to)
    ensures Noted(items') == Noted(items)
  {
    hide Noted, Framed, Append, Supplies, Sender.Valid, Sender.Stream;
    if offset == NO_MESSAGE_START {
      items', j' := items, j;
      TakingMiddle(sender, s, taken, items, j, p, at, to);
    } else {
      var t :| 0 <= t <= |sender.msgs| && sender.Start(t) == at + offset;
      items', j' := TakingStart(sender, s, taken, items, j, p, at, to, t);
    }
  }
}
