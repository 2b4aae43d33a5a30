/**
 The firmware image and its upload (Tools/px_uploader.py): padding, the CRC over the padded
 image, splitting into groups, programming, and what the CRC comparison after it can rely on.
 */
module Firmware {
  import opened CrcTable

  const BLANK: Byte := 0xff
  const PROG_MULTI_MAX := 252

  function Blanks(n: nat): (s: seq<Byte>)
    ensures |s| == n && forall k | 0 <= k < n :: s[k] == BLANK
  {
    seq(n, _ => BLANK)
  }

  // ---------- the CRC of a sequence of bytes ----------

  /** __crc32(bytes, state) */
  function Crc(bytes: seq<Byte>, state: bv32): bv32 {
    if bytes == [] then state else Crc(bytes[1..], TableStep(state, bytes[0]))
  }

  /** The same, bit by bit from the polynomial. */
  function BitwiseCrc(bytes: seq<Byte>, state: bv32): bv32 {
    if bytes == [] then state else BitwiseCrc(bytes[1..], Bits8(Xor(state, Wide(bytes[0]))))
  }

  lemma {:induction false} CrcIsBitwise(bytes: seq<Byte>, state: bv32)
    ensures Crc(bytes, state) == BitwiseCrc(bytes, state)
  {
    hide TableStep, Bits8, Xor, Wide;
    if bytes != [] {
      TableStepIsBitwise(state, bytes[0]);
      CrcIsBitwise(bytes[1..], TableStep(state, bytes[0]));
    }
  }

  lemma {:induction false} CrcAppend(a: seq<Byte>, b: seq<Byte>, state: bv32)
    ensures Crc(a + b, state) == Crc(b, Crc(a, state))
  {
    hide TableStep;
    if a == [] {
      assert a + b == b;
    } else {
      assert (a + b)[1..] == a[1..] + b;
      CrcAppend(a[1..], b, TableStep(state, a[0]));
    }
  }

  method Crc32(bytes: seq<Byte>, start: bv32) returns (state: bv32)
    ensures state == Crc(bytes, start)
  {
    hide TableStep;
    state := start;
    for i := 0 to |bytes|
      invariant Crc(bytes, start) == Crc(bytes[i..], state)
    {
      state := TableStep(state, bytes[i]);
      assert bytes[i..][1..] == bytes[i + 1..];
    }
  }

  // ---------- the image ----------

  /** Number of 4 byte blanks that crc(padlen) appends: range(length, padlen - 1, 4). */
  function PadRounds(length: nat, padlen: int): nat {
    if length < padlen - 1 then (padlen - 1 - length + 3) / 4 else 0
  }

  class FirmwareFile {
    var image: seq<Byte>

    /** The constructor, given the decompressed image: pads it to a multiple of four bytes. */
    constructor (data: seq<Byte>)
      ensures |image| % 4 == 0 && |data| <= |image| < |data| + 4
      ensures image == data + Blanks(|image| - |data|)
    {
      var padded := data;
      while |padded| % 4 != 0
        invariant |data| <= |padded| && padded == data + Blanks(|padded| - |data|)
        invariant |padded| <= |data| + (4 - |data| % 4) % 4
        decreases |data| + 4 - |padded|
      {
        padded := padded + [BLANK];
      }
      image := padded;
    }

    /** crc(padlen) */
    method ImageCrc(padlen: int) returns (state: bv32)
      ensures state == Crc(image + Blanks(4 * PadRounds(|image|, padlen)), 0)
    {
      hide Crc;
      state := Crc32(image, 0);
      var i := |image|;
      ghost var n := 0;
      assert image + Blanks(0) == image;
      while i < padlen - 1
        invariant i == |image| + 4 * n && n <= PadRounds(|image|, padlen)
        invariant state == Crc(image + Blanks(4 * n), 0)
        decreases padlen - i
      {
        CrcAppend(image + Blanks(4 * n), Blanks(4), 0);
        assert image + Blanks(4 * n) + Blanks(4) == image + Blanks(4 * (n + 1));
        state := Crc32([0xff, 0xff, 0xff, 0xff], state);
        assert [0xff, 0xff, 0xff, 0xff] == Blanks(4);
        i := i + 4;
        n := n + 1;
      }
    }
  }

  /** The blanks are the fewest that reach the last byte but one. */
  lemma RoundsAreFewest(length: nat, padlen: int)
    ensures
      var n := PadRounds(length, padlen);
      length + 4 * n >= padlen - 1 && (n > 0 ==> length + 4 * (n - 1) < padlen - 1)
  {
  }

  /** crc(padlen) covers exactly padlen bytes if and only if padlen is a multiple of four (from the image on). */
  lemma CoversExactly(length: nat, padlen: nat)
    requires length % 4 == 0 && length <= padlen
    ensures length + 4 * PadRounds(length, padlen) == padlen <==> padlen % 4 == 0
  {
  }

  /** Otherwise it covers too little or too much, like 8 bytes for an image of 4 and a length of 6. */
  lemma PartialWordIsMiscounted()
    ensures 4 + 4 * PadRounds(4, 6) == 8 && 4 + 4 * PadRounds(4, 5) == 4
  {
  }

  // ---------- splitting and programming ----------

  /** __split_len() */
  function SplitLen(s: seq<Byte>, n: nat): (groups: seq<seq<Byte>>)
    requires n > 0
  {
    if |s| <= n then if s == [] then [] else [s] else [s[..n]] + SplitLen(s[n..], n)
  }

  function Concat(groups: seq<seq<Byte>>): seq<Byte> {
    if groups == [] then [] else groups[0] + Concat(groups[1..])
  }

  /** The groups are the image cut up; each fits a PROG_MULTI command and is a multiple of four bytes. */
  lemma {:induction false} SplitIsExact(s: seq<Byte>, n: nat)
    requires n > 0 && n % 4 == 0 && |s| % 4 == 0
    ensures Concat(SplitLen(s, n)) == s
    ensures forall k | 0 <= k < |SplitLen(s, n)| :: 0 < |SplitLen(s, n)[k]| <= n && |SplitLen(s, n)[k]| % 4 == 0
    ensures forall k | 0 <= k < |SplitLen(s, n)| - 1 :: |SplitLen(s, n)[k]| == n
    decreases |s|
  {
    if |s| > n {
      SplitIsExact(s[n..], n);
      assert s == s[..n] + s[n..];
      assert ([s[..n]] + SplitLen(s[n..], n))[1..] == SplitLen(s[n..], n);
    } else if s != [] {
      assert Concat([s]) == s + Concat([]);
    }
  }

  /** The board's flash: erased to blanks; PROG_MULTI writes at an address that moves on. */
  class Flash {
    const memory: array<Byte>
    var address: nat

    ghost predicate Valid()
      reads this
    {
      address <= memory.Length
    }

    constructor Erase(size: nat)
      ensures Valid() && fresh(memory) && memory.Length == size && address == 0
      ensures memory[..] == Blanks(size)
    {
      memory := new Byte[size](_ => BLANK);
      address := 0;
    }

    /** A PROG_MULTI command: its length is one byte, and the bootloader takes whole words. */
    method ProgMulti(data: seq<Byte>)
      requires Valid() && address + |data| <= memory.Length && |data| <= 255 && |data| % 4 == 0
      modifies this, memory
      ensures Valid() && address == old(address) + |data|
      ensures memory[..] == old(memory[..address]) + data + old(memory[address + |data|..])
    {
      for k := 0 to |data|
        invariant memory[..] == old(memory[..address]) + data[..k] + old(memory[address + k..])
        invariant address == old(address)
      {
        memory[address + k] := data[k];
      }
      address := address + |data|;
    }
  }

  /** __program(): the groups of the image, one PROG_MULTI each. */
  method Program(fw: FirmwareFile, size: nat) returns (flash: Flash)
    requires |fw.image| % 4 == 0 && |fw.image| <= size
    ensures fresh(flash) && fresh(flash.memory) && flash.memory.Length == size
    ensures flash.memory[..] == fw.image + Blanks(size - |fw.image|)
  {
    hide SplitLen, Concat, Blanks, Holds;
    var image := fw.image;
    flash := new Flash.Erase(size);
    HoldsNothing(size);
    var groups := SplitLen(image, PROG_MULTI_MAX);
    ConcatStart(image, groups);
    SplitIsExact(image, PROG_MULTI_MAX);
    ghost var done: seq<Byte> := [];
    for i := 0 to |groups|
      invariant flash.Valid() && flash.memory.Length == size && fresh(flash) && fresh(flash.memory)
      invariant Rest(image, groups, i, done) && flash.address == |done|
      invariant Holds(flash.memory[..], done)
    {
      ConcatStep(image, groups, i, done);
      ProgramNext(flash, groups[i], done);
      done := done + groups[i];
    }
    ConcatEnd(image, groups, done);
    HoldsAll(flash.memory[..], done);
  }

  /** `done` and the groups from i on make up the image. */
  ghost predicate Rest(image: seq<Byte>, groups: seq<seq<Byte>>, i: nat, done: seq<Byte>) {
    i <= |groups| && image == done + Concat(groups[i..])
  }

  lemma ConcatStart(image: seq<Byte>, groups: seq<seq<Byte>>)
    requires groups == SplitLen(image, PROG_MULTI_MAX) && |image| % 4 == 0
    ensures Rest(image, groups, 0, [])
  {
    SplitIsExact(image, PROG_MULTI_MAX);
    assert groups[0..] == groups;
  }

  lemma ConcatStep(image: seq<Byte>, groups: seq<seq<Byte>>, i: nat, done: seq<Byte>)
    requires i < |groups| && Rest(image, groups, i, done)
    ensures Rest(image, groups, i + 1, done + groups[i]) && |done| + |groups[i]| <= |image|
  {
    assert groups[i..][0] == groups[i] && groups[i..][1..] == groups[i + 1..];
    assert done + (groups[i] + Concat(groups[i + 1..])) == (done + groups[i]) + Concat(groups[i + 1..]);
  }

  lemma ConcatEnd(image: seq<Byte>, groups: seq<seq<Byte>>, done: seq<Byte>)
    requires Rest(image, groups, |groups|, done)
    ensures image == done
  {
    assert groups[|groups|..] == [];
  }

  lemma HoldsNothing(size: nat)
    ensures Holds(Blanks(size), [])
  {
  }

  /** The memory holds `done`, and is blank from there on. */
  ghost predicate Holds(memory: seq<Byte>, done: seq<Byte>) {
    |done| <= |memory| && memory == done + Blanks(|memory| - |done|)
  }

  lemma HoldsAll(memory: seq<Byte>, done: seq<Byte>)
    requires Holds(memory, done)
    ensures |done| <= |memory| && memory == done + Blanks(|memory| - |done|)
  {
  }

  method ProgramNext(flash: Flash, group: seq<Byte>, ghost done: seq<Byte>)
    requires flash.Valid() && flash.address == |done| && |done| + |group| <= flash.memory.Length
    requires |group| <= 255 && |group| % 4 == 0
    requires Holds(flash.memory[..], done)
    modifies flash, flash.memory
    ensures flash.Valid() && flash.address == |done + group|
    ensures Holds(flash.memory[..], done + group)
  {
    WriteNext(done, group, flash.memory.Length);
    flash.ProgMulti(group);
  }

  /** Writing a group behind what is done leaves the rest blank. */
  lemma WriteNext(done: seq<Byte>, group: seq<Byte>, size: nat)
    requires |done| + |group| <= size
    ensures
      var before := done + Blanks(size - |done|);
      before[..|done|] + group + before[|done| + |group|..] == done + group + Blanks(size - |done + group|)
  {
  }

  /** Programming an erased flash gives a flash whose CRC is the one crc(fw_maxsize) predicts. */
  method ProgramAndVerify(fw: FirmwareFile, maxsize: nat) returns (flash: Flash, expected: bv32, reported: bv32)
    requires |fw.image| % 4 == 0 && |fw.image| <= maxsize && maxsize % 4 == 0
    ensures fresh(flash) && flash.memory.Length == maxsize
    ensures reported == Crc(flash.memory[..], 0) && expected == reported
  {
    hide Crc;
    flash := Program(fw, maxsize);
    CoversExactly(|fw.image|, maxsize);
    expected := fw.ImageCrc(maxsize);
    reported := Crc32(flash.memory[..], 0);
  }

  // ---------- what a matching CRC excludes ----------

  lemma XorInjective(a: bv32, b: bv32, c: bv32)
    requires Xor(a, c) == Xor(b, c)
    ensures a == b
  {
  }

  /** From different states, the same bytes lead to different states. */
  lemma {:induction false} CrcKeepsDifference(bytes: seq<Byte>, a: bv32, b: bv32)
    requires a != b
    ensures Crc(bytes, a) != Crc(bytes, b)
  {
    hide TableStep, Bits8, Xor, Wide;
    if bytes != [] {
      TableStepIsBitwise(a, bytes[0]);
      TableStepIsBitwise(b, bytes[0]);
      if TableStep(a, bytes[0]) == TableStep(b, bytes[0]) {
        Bits8Injective(Xor(a, Wide(bytes[0])), Xor(b, Wide(bytes[0])));
        XorInjective(a, b, Wide(bytes[0]));
      }
      CrcKeepsDifference(bytes[1..], TableStep(a, bytes[0]), TableStep(b, bytes[0]));
    }
  }

  function Shl8(x: bv32): bv32 { x << 8 }

  /** Up to four bytes as one number, first byte lowest. */
  function Word(w: seq<Byte>): bv32 {
    if w == [] then 0 else Xor(Wide(w[0]), Shl8(Word(w[1..])))
  }

  /** x needs at most n bytes. */
  predicate Fits(x: bv32, n: nat) {
    if n == 0 then x == 0 else if n == 1 then x < 0x100 else if n == 2 then x < 0x1_0000 else if n == 3 then x < 0x100_0000 else true
  }

  lemma FitsMore(b: Byte, x: bv32, n: nat)
    requires Fits(x, n) && n <= 3
    ensures Fits(Xor(Wide(b), Shl8(x)), n + 1)
  {
    if n == 0 {
      assert (b as bv32) ^ (0 as bv32 << 8) < 0x100;
    }
  }

  lemma {:induction false} WordFits(w: seq<Byte>)
    ensures Fits(Word(w), |w|)
  {
    hide Xor, Wide, Shl8;
    if w != [] {
      WordFits(w[1..]);
      if |w| <= 4 {
        FitsMore(w[0], Word(w[1..]), |w| - 1);
      }
    }
  }

  lemma Unpack(b: Byte, x: bv32)
    requires x < 0x100_0000
    ensures Low(Xor(Wide(b), Shl8(x))) == b && Shift8(Xor(Wide(b), Shl8(x))) == x
  {
  }

  lemma {:induction false} WordInjective(v: seq<Byte>, w: seq<Byte>)
    requires |v| == |w| <= 4 && Word(v) == Word(w)
    ensures v == w
  {
    hide Xor, Wide, Shl8, Low, Shift8;
    if v != [] {
      WordFits(v[1..]);
      WordFits(w[1..]);
      FitsThree(Word(v[1..]), |v| - 1);
      FitsThree(Word(w[1..]), |w| - 1);
      Unpack(v[0], Word(v[1..]));
      Unpack(w[0], Word(w[1..]));
      WordInjective(v[1..], w[1..]);
      assert v == [v[0]] + v[1..] && w == [w[0]] + w[1..];
    }
  }

  lemma FitsThree(x: bv32, n: nat)
    requires Fits(x, n) && n <= 3
    ensures x < 0x100_0000
  {
  }

  function Bits8Times(c: bv32, k: nat): bv32
    decreases k
  {
    if k == 0 then c else Bits8Times(Bits8(c), k - 1)
  }

  lemma {:induction false} Bits8TimesInjective(c: bv32, d: bv32, k: nat)
    requires Bits8Times(c, k) == Bits8Times(d, k)
    ensures c == d
    decreases k
  {
    hide Bits8;
    if k > 0 {
      Bits8TimesInjective(Bits8(c), Bits8(d), k - 1);
      Bits8Injective(c, d);
    }
  }

  lemma ShiftedWord(x: bv32)
    requires x < 0x100_0000
    ensures Shl8(x) & 0xff == 0 && Shift8(Shl8(x)) == x
  {
  }

  lemma XorAssoc(a: bv32, b: bv32, c: bv32)
    ensures Xor(a, Xor(b, c)) == Xor(Xor(a, b), c)
  {
  }

  lemma XorCommutes(a: bv32, b: bv32)
    ensures Xor(a, b) == Xor(b, a)
  {
  }

  /** Eight bits move a number that was shifted up by a byte back down. */
  lemma Bits8OfShifted(a: bv32, x: bv32)
    requires x < 0x100_0000
    ensures Bits8(Xor(a, Shl8(x))) == Xor(Bits8(a), x)
  {
    hide Bits8, Xor, Shl8, Shift8, LowByteClear, Half8;
    ShiftedWord(x);
    LowByteClearIsMask(Shl8(x));
    ShiftIsHalf8(x);
    Bits8OfSum(a, Shl8(x));
  }

  lemma ShiftIsHalf8(x: bv32)
    requires x < 0x100_0000
    ensures Half8(Shl8(x)) == x
  {
    ShiftedWord(x);
    Half8IsShift(Shl8(x));
  }

  /** The CRC of up to four bytes depends on state and bytes only through their sum. */
  lemma {:induction false} CrcOfWord(w: seq<Byte>, state: bv32)
    requires |w| <= 4
    ensures BitwiseCrc(w, state) == Bits8Times(Xor(state, Word(w)), |w|)
  {
    hide Bits8, Xor, Wide, Shl8;
    if w == [] {
      XorZero(state);
    } else {
      var b, rest := w[0], w[1..];
      WordFits(rest);
      FitsThree(Word(rest), |rest|);
      CrcOfWord(rest, Bits8(Xor(state, Wide(b))));
      Bits8OfShifted(Xor(state, Wide(b)), Word(rest));
      XorAssoc(state, Wide(b), Shl8(Word(rest)));
    }
  }

  lemma XorZero(a: bv32)
    ensures Xor(a, 0) == a
  {
  }

  /**
   A flash that differs from what it should hold only within four consecutive bytes has a
   different CRC, wherever those bytes are and whatever is in them.
   */
  lemma BurstIsDetected(before: seq<Byte>, v: seq<Byte>, w: seq<Byte>, after: seq<Byte>, state: bv32)
    requires |v| == |w| <= 4 && v != w
    ensures Crc(before + v + after, state) != Crc(before + w + after, state)
  {
    hide Crc, BitwiseCrc, Xor, Word, Bits8Times;
    var s := Crc(before, state);
    CrcAppend(before + v, after, state);
    CrcAppend(before, v, state);
    CrcAppend(before + w, after, state);
    CrcAppend(before, w, state);
    CrcIsBitwise(v, s);
    CrcIsBitwise(w, s);
    CrcOfWord(v, s);
    CrcOfWord(w, s);
    if Crc(v, s) == Crc(w, s) {
      Bits8TimesInjective(Xor(s, Word(v)), Xor(s, Word(w)), |v|);
      XorCommutes(s, Word(v));
      XorCommutes(s, Word(w));
      XorInjective(Word(v), Word(w), s);
      WordInjective(v, w);
    }
    CrcKeepsDifference(after, Crc(v, s), Crc(w, s));
  }
}
