/**
 The log history (platforms/common/px4_log_history.cpp, log_history.h): a circular buffer that
 holds the last bytes written, with a reader that can stop anywhere and go on later.
 */
module LogHistory {

  const NUL: char := '\0'

  /** The last n elements of s. */
  function Last<T>(s: seq<T>, n: nat): (r: seq<T>)
    ensures |r| == if |s| <= n then |s| else n
  {
    if |s| <= n then s else s[|s| - n..]
  }

  /** How many places lie between two indices of a circular buffer of n places. */
  function Length(from: nat, to: nat, n: nat): (r: nat)
    requires from < n && to < n
    ensures r < n
  {
    if from <= to then to - from else n - (from - to)
  }

  /** What lies in the circular buffer b from index `from` up to index `to`. */
  function Between<T>(b: seq<T>, from: nat, to: nat): (r: seq<T>)
    requires from < |b| && to < |b|
    ensures |r| == Length(from, to, |b|)
  {
    if from <= to then b[from..to] else b[from..] + b[..to]
  }

  /** Index x of the circular buffer, for x less than twice its size. */
  function Wrap(x: nat, n: nat): nat
    requires x < 2 * n
  {
    if x < n then x else x - n
  }

  lemma WrapIsMod(x: nat, n: nat)
    requires x < 2 * n
    ensures x % n == Wrap(x, n)
  {
  }

  lemma BetweenAt<T>(b: seq<T>, from: nat, to: nat, k: nat)
    requires from < |b| && to < |b| && k < |Between(b, from, to)|
    ensures from + k < 2 * |b| && Between(b, from, to)[k] == b[Wrap(from + k, |b|)]
  {
  }

  lemma LastOfLast<T>(s: seq<T>, t: seq<T>, n: nat)
    ensures Last(Last(s, n) + t, n) == Last(s + t, n)
  {
  }

  /** The tail moves on by one place, and pushes the head along if it meets it. */
  predicate Moves(n: nat, head: nat, tail: nat, head': nat, tail': nat) {
    && head < n && tail < n
    && tail' == Wrap(tail + 1, n) && head' == if tail' == head then Wrap(head + 1, n) else head
  }

  /**
   Byte k of the new contents lies where byte k of the old did, or byte k + 1 if the oldest byte
   was dropped; and the one after the last old byte lies at the old tail.
   */
  lemma MovesIndex(n: nat, head: nat, tail: nat, head': nat, tail': nat, k: nat)
    requires Moves(n, head, tail, head', tail')
    ensures tail' < n && head' < n
    ensures Length(head', tail', n) == Length(head, tail, n) + 1 - Drop(head, tail')
    ensures Drop(head, tail') == 1 <==> Length(head, tail, n) == n - 1
    ensures k < Length(head', tail', n) ==>
              && Wrap(head' + k, n) == Wrap(head + k + Drop(head, tail'), n)
              && (Wrap(head' + k, n) == tail <==> k + Drop(head, tail') == Length(head, tail, n))
  {
  }

  /** One if the oldest byte makes room. */
  function Drop(head: nat, tail': nat): nat { if tail' == head then 1 else 0 }

  lemma StoreAt<T>(b: seq<T>, head: nat, tail: nat, head': nat, tail': nat, c: T, k: nat)
    requires Moves(|b|, head, tail, head', tail') && head' < |b| && tail' < |b|
    requires k < |Between(b[tail := c], head', tail')|
    ensures k + Drop(head, tail') <= |Between(b, head, tail)|
    ensures Between(b[tail := c], head', tail')[k] == (Between(b, head, tail) + [c])[k + Drop(head, tail')]
  {
    hide Between, Drop;
    MovesIndex(|b|, head, tail, head', tail', k);
    BetweenAt(b[tail := c], head', tail', k);
    var j := k + Drop(head, tail');
    if j < |Between(b, head, tail)| {
      BetweenAt(b, head, tail, j);
    }
    hide Wrap, Moves, Length;
  }

  /** Storing one byte at the tail keeps the last |b| - 1 bytes. */
  lemma StoreOne<T>(b: seq<T>, head: nat, tail: nat, head': nat, tail': nat, c: T)
    requires Moves(|b|, head, tail, head', tail')
    ensures head' < |b| && tail' < |b|
    ensures Between(b[tail := c], head', tail') == Last(Between(b, head, tail) + [c], |b| - 1)
  {
    MovesIndex(|b|, head, tail, head', tail', 0);
    hide Between, Wrap, Moves, Length;
    var was, r := Between(b, head, tail), Between(b[tail := c], head', tail');
    var drop := Drop(head, tail');
    hide Drop;
    forall k | 0 <= k < |r|
      ensures k + drop <= |was| && r[k] == (was + [c])[k + drop]
    {
      StoreAt(b, head, tail, head', tail', c, k);
    }
    assert r == (was + [c])[drop..];
  }

  /** Reading `size` bytes and moving the offset on leaves the rest to be read. */
  lemma MoveOffset<T>(b: seq<T>, from: nat, to: nat, size: nat)
    requires from < |b| && to < |b| && size <= |Between(b, from, to)|
    ensures Between(b, Wrap(from + size, |b|), to) == Between(b, from, to)[size..]
  {
    var next, all := Wrap(from + size, |b|), Between(b, from, to);
    var r := Between(b, next, to);
    forall k | 0 <= k < |r|
      ensures size + k < |all| && r[k] == all[size + k]
    {
      BetweenAt(b, next, to, k);
      BetweenAt(b, from, to, size + k);
    }
  }

  class LogHistory {
    const capacity: nat       // BOARD_LOG_HISTORY_SIZE
    const data: array<char>   // _log_history
    var head: nat
    var tail: nat
    ghost var written: seq<char>  // every byte ever written

    ghost predicate Valid()
      reads this, data
    {
      && data.Length == capacity
      && head < capacity && tail < capacity
      && Contents() == Last(written, capacity - 1)
    }

    /** The bytes between _head and _tail. */
    ghost function Contents(): seq<char>
      requires data.Length == capacity && head < capacity && tail < capacity
      reads this, data
    {
      Between(data[..], head, tail)
    }

    constructor (n: nat)
      requires n >= 1
      ensures Valid() && fresh(data) && capacity == n && written == []
    {
      capacity := n;
      data := new char[n](_ => NUL);
      head, tail, written := 0, 0, [];
    }

    /** write(): a C string, up to its terminator. */
    method Write(buffer: string)
      requires Valid() && NUL !in buffer
      modifies this, data
      ensures Valid() && written == old(written) + buffer
    {
      hide Between, Last;
      var i := 0;
      while i < |buffer|
        invariant i <= |buffer|
        invariant Valid() && written == old(written) + buffer[..i]
      {
        Store(buffer[i]);
        i := i + 1;
      }
    }

    /** The body of write()'s loop. */
    method Store(c: char)
      requires Valid()
      modifies this, data
      ensures Valid() && written == old(written) + [c]
    {
      hide Between, Last;
      LastOfLast(written, [c], capacity - 1);
      WrapIsMod(tail + 1, capacity);
      WrapIsMod(head + 1, capacity);
      data[tail] := c;
      assert data[..] == old(data[..])[tail := c];
      written := written + [c];
      tail := (tail + 1) % capacity;
      if tail == head {
        head := (head + 1) % capacity;
      }
      StoreOne(old(data[..]), old(head), old(tail), head, tail, c);
    }

    method Size() returns (size: nat)
      requires Valid()
      ensures size == |Contents()|
      ensures size == if |written| < capacity then |written| else capacity - 1
    {
      if head <= tail {
        size := tail - head;
      } else {
        size := capacity - (head - tail);
      }
    }

    /** What a reader at `offset` has yet to read; -1 stands for the oldest byte. */
    ghost function Unread(offset: int): seq<char>
      requires Valid() && -1 <= offset < capacity
      reads this, data
    {
      Between(data[..], if offset == -1 then head else offset, tail)
    }

    lemma ReadParts(b: seq<char>, from: nat, to: nat, n1: nat, n2: nat)
      requires from < |b| && to < |b|
      requires if from <= to then from + n1 <= to && n2 == 0 else from + n1 <= |b| && n2 <= to && (n2 > 0 ==> from + n1 == |b|)
      ensures n1 + n2 <= |Between(b, from, to)|
      ensures Between(b, from, to)[..n1 + n2] == b[from..from + n1] + b[..n2]
    {
    }

    method Read(buffer: array<char>, bufferLength: nat, offset: int) returns (size: nat, next: int)
      requires Valid() && -1 <= offset < capacity
      requires buffer != data && bufferLength <= buffer.Length
      modifies buffer
      ensures Valid() && 0 <= next < capacity
      ensures size == if |Unread(offset)| < bufferLength then |Unread(offset)| else bufferLength
      ensures buffer[..size] == Unread(offset)[..size]
      ensures buffer[size..] == old(buffer[size..])
      ensures Unread(next) == Unread(offset)[size..]
    {
      var from := if offset == -1 then head else offset;
      size := CopyOut(buffer, bufferLength, from);
      next := (from + size) % capacity;
      ghost var b := data[..];
      WrapIsMod(from + size, capacity);
      MoveOffset(b, from, tail, size);
      hide Last, Between;
    }

    /** The part of read() that copies: up to the tail, or up to the end and on from the beginning. */
    method CopyOut(buffer: array<char>, bufferLength: nat, from: nat) returns (size: nat)
      requires data.Length == capacity && tail < capacity && from < capacity
      requires buffer != data && bufferLength <= buffer.Length
      modifies buffer
      ensures
        var rest := Between(data[..], from, tail);
        size == (if |rest| < bufferLength then |rest| else bufferLength) && buffer[..size] == rest[..size]
      ensures buffer[size..] == old(buffer[size..])
    {
      hide Between;
      size := 0;
      if from < tail {
        size := if tail - from > bufferLength then bufferLength else tail - from;
        CopyTo(buffer, 0, from, size);
        ReadParts(data[..], from, tail, size, 0);
      } else if tail < from {
        size := CopyWrapped(buffer, bufferLength, from);
      }
    }

    method CopyWrapped(buffer: array<char>, bufferLength: nat, from: nat) returns (size: nat)
      requires data.Length == capacity && tail < from < capacity
      requires buffer != data && bufferLength <= buffer.Length
      modifies buffer
      ensures
        var rest := Between(data[..], from, tail);
        size == (if |rest| < bufferLength then |rest| else bufferLength) && buffer[..size] == rest[..size]
      ensures buffer[size..] == old(buffer[size..])
    {
      hide Between;
      size := if capacity - from > bufferLength then bufferLength else capacity - from;
      CopyTo(buffer, 0, from, size);
      var room := bufferLength - size;
      var second := if tail > room then room else tail;
      ReadParts(data[..], from, tail, size, second);
      if second > 0 {
        CopyTo(buffer, size, 0, second);
        size := size + second;
      }
    }

    /** memcpy(buffer + to, _log_history + from, n) */
    method CopyTo(buffer: array<char>, to: nat, from: nat, n: nat)
      requires buffer != data && from + n <= data.Length && to + n <= buffer.Length
      modifies buffer
      ensures buffer[..to + n] == old(buffer[..to]) + data[from..from + n]
      ensures buffer[to + n..] == old(buffer[to + n..])
    {
      for k := 0 to n
        invariant buffer[..to] == old(buffer[..to])
        invariant buffer[to..to + k] == data[from..from + k]
        invariant buffer[to + k..] == old(buffer[to + k..])
      {
        buffer[to + k] := data[from + k];
      }
      assert buffer[..to + n] == buffer[..to] + buffer[to..to + n];
    }
  
    /** Successive reads from offset -1, of any positive chunk size, add up to the contents. */
    method ReadAll(chunk: nat) returns (out: seq<char>)
      requires Valid() && chunk > 0
      ensures out == Contents()
    {
      hide Between, Last;
      var buffer := new char[chunk](_ => NUL);
      var offset, size := -1, chunk;
      out := [];
      while size == chunk
        invariant Valid() && -1 <= offset < capacity && fresh(buffer) && buffer.Length == chunk && size <= chunk
        invariant out + Unread(offset) == Contents()
        invariant size < chunk ==> Unread(offset) == []
        decreases size == chunk, |Unread(offset)|
      {
        ghost var rest := Unread(offset);
        size, offset := Read(buffer, chunk, offset);
        assert rest == rest[..size] + rest[size..];
        out := out + buffer[..size];
      }
    }

    static ghost predicate Silent(writes: seq<string>) {
      forall k | 0 <= k < |writes| :: writes[k] == ""
    }

    static ghost predicate CStrings(writes: seq<string>) {
      forall k | 0 <= k < |writes| :: NUL !in writes[k]
    }

    /**
     print(): chunks of 512 bytes. The lock is not held between two reads; `writes[k]` is what other
     threads write after read number k. The loop ends whatever they write, and if they write
     nothing it puts out exactly the contents.
     */
    method Print(writes: seq<string>) returns (out: seq<char>)
      requires Valid() && CStrings(writes)
      modifies this, data
      ensures Valid() && |out| < capacity + 512
      ensures Silent(writes) ==> out == old(Contents()) == Contents()
    {
      hide Between, Last, Silent, CStrings;
      var bufferLength := 512;
      var buffer := new char[bufferLength](_ => NUL);
      var offset, total, round := -1, 0, 0;
      out := [];
      while true
        invariant Valid() && -1 <= offset < capacity && fresh(buffer) && buffer.Length == bufferLength == 512
        invariant |out| == total && (total == 0 || total < capacity)
        invariant Silent(writes) ==> Contents() == old(Contents()) && out + Unread(offset) == Contents()
        decreases capacity - total
      {
        var readSize;
        readSize, offset, out := PrintChunk(buffer, offset, out);
        if readSize < bufferLength {
          break;
        }
        total := total + readSize;
        if total >= capacity {
          break;
        }
        OtherThreadsWrite(writes, round);
        round := round + 1;
      }
    }

    /** One read() and fwrite() of print(). */
    method PrintChunk(buffer: array<char>, offset: int, before: seq<char>)
      returns (readSize: nat, next: int, out: seq<char>)
      requires Valid() && -1 <= offset < capacity && buffer != data
      modifies buffer
      ensures Valid() && 0 <= next < capacity && readSize <= buffer.Length
      ensures |out| == |before| + readSize
      ensures out + Unread(next) == before + Unread(offset)
      ensures readSize < buffer.Length ==> Unread(next) == []
    {
      hide Between, Last;
      ghost var rest := Unread(offset);
      readSize, next := Read(buffer, buffer.Length, offset);
      assert rest == rest[..readSize] + rest[readSize..];
      out := before + buffer[..readSize];
    }

    method OtherThreadsWrite(writes: seq<string>, round: nat)
      requires Valid() && CStrings(writes)
      modifies this, data
      ensures Valid()
      ensures Silent(writes) ==> unchanged(this) && unchanged(data)
    {
      if round < |writes| && writes[round] != "" {
        Write(writes[round]);
      }
    }
  }
}
