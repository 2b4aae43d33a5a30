/**
 Struct sizes and padding of generated uORB messages
 (Tools/msg/px_generate_uorb_topic_helper.py, sizeof_field_type and add_padding_bytes), against the
 layout rules of a C compiler.
 */
module StructLayout {
  import opened Positions

  datatype Scalar =
    | Int8 | Int16 | Int32 | Int64 | UInt8 | UInt16 | UInt32 | UInt64 | Float32 | Float64 | Bool | Char

  /** Name of a field of the message, or of the k-th padding field. */
  datatype Name = Named(text: string) | PaddingName(k: nat)

  datatype Kind = Builtin(scalar: Scalar) | Embedded(children: seq<Field>)

  /** `count` is the array length, 1 for a field that is no array. */
  datatype Field = Field(name: Name, kind: Kind, count: nat, isHeader: bool)

  /** msgtype_size_map */
  function ScalarSize(s: Scalar): (n: nat)
    ensures n == 1 || n == 2 || n == 4 || n == 8
  {
    match s
    case Int8 => 1 case UInt8 => 1 case Bool => 1 case Char => 1
    case Int16 => 2 case UInt16 => 2
    case Int32 => 4 case UInt32 => 4 case Float32 => 4
    case Int64 => 8 case UInt64 => 8 case Float64 => 8
  }

  /** sizeof_field_type(): the sort key; embedded types get 0. */
  function SortKey(f: Field): nat {
    match f.kind
    case Builtin(s) => ScalarSize(s)
    case Embedded(_) => 0
  }

  function Padding(k: nat, n: nat): Field { Field(PaddingName(k), Builtin(UInt8), n, false) }

  /** Bytes missing to the next multiple of eight. */
  function Gap(at: nat): (n: nat)
    ensures n < 8 && (at + n) % 8 == 0
  {
    if at % 8 == 0 then 0 else 8 - at % 8
  }

  /** How deep types are nested in a field, and in a list of fields. */
  ghost function Depth(f: Field): nat
    decreases f, 1
  {
    match f.kind
    case Builtin(_) => 0
    case Embedded(children) => 1 + DepthOf(children)
  }

  ghost function DepthOf(fields: seq<Field>): nat
    decreases fields, 0
  {
    if fields == [] then 0
    else
      var d, rest := Depth(fields[0]), DepthOf(fields[1..]);
      if d > rest then d else rest
  }

  lemma {:induction false} DepthOfElement(fields: seq<Field>, k: nat)
    requires k < |fields|
    ensures Depth(fields[k]) <= DepthOf(fields)
  {
    if k > 0 {
      DepthOfElement(fields[1..], k - 1);
    }
  }

  // ---------- what add_padding_bytes computes ----------

  /** Size of one element of a field. */
  function ElementSize(f: Field): nat
    decreases f, 1
  {
    match f.kind
    case Builtin(s) => ScalarSize(s)
    case Embedded(children) => StructSize(children)
  }

  function FieldSize(f: Field): nat
    decreases f, 2
  {
    if f.isHeader then 0 else ElementSize(f) * f.count
  }

  /** Padding in front of a field that would start at position `at`. */
  function GapBefore(f: Field, at: nat): nat {
    if !f.isHeader && f.kind.Embedded? then Gap(at) else 0
  }

  /** Where the fields end if the first would start at position `at`. */
  function EndFrom(fields: seq<Field>, at: nat): nat
    decreases fields, 0
  {
    if fields == [] then at
    else EndFrom(fields[1..], at + GapBefore(fields[0], at) + FieldSize(fields[0]))
  }

  /** The struct size: the end of the fields, rounded up. */
  function StructSize(fields: seq<Field>): nat
    decreases fields, 1
  {
    EndFrom(fields, 0) + Gap(EndFrom(fields, 0))
  }

  /** The fields with padding, if the next one would start at `at` and k paddings came before. */
  function PadFrom(fields: seq<Field>, at: nat, k: nat): seq<Field> {
    if fields == [] then if Gap(at) == 0 then [] else [Padding(k, Gap(at))]
    else
      var f, gap := fields[0], GapBefore(fields[0], at);
      var rest := fields[1..];
      if gap == 0 then [f] + PadFrom(rest, at + FieldSize(f), k)
      else [Padding(k, gap), f] + PadFrom(rest, at + gap + FieldSize(f), k + 1)
  }

  /** `done` is laid out and ends at `at`; `rest` is still to come. */
  ghost predicate Laid(input: seq<Field>, done: seq<Field>, rest: seq<Field>, at: nat, k: nat) {
    && PadFrom(input, 0, 0) == done + PadFrom(rest, at, k)
    && EndFrom(input, 0) == EndFrom(rest, at)
  }

  lemma LaidStart(input: seq<Field>)
    ensures Laid(input, [], input, 0, 0)
  {
  }

  lemma LaidStep(input: seq<Field>, done: seq<Field>, rest: seq<Field>, at: nat, k: nat)
    requires Laid(input, done, rest, at, k) && rest != []
    ensures
      var f, gap := rest[0], GapBefore(rest[0], at);
      if gap == 0 then Laid(input, done + [f], rest[1..], at + FieldSize(f), k)
      else Laid(input, done + [Padding(k, gap), f], rest[1..], at + gap + FieldSize(f), k + 1)
  {
    var f, gap := rest[0], GapBefore(rest[0], at);
    if gap == 0 {
      assert done + ([f] + PadFrom(rest[1..], at + FieldSize(f), k)) == (done + [f]) + PadFrom(rest[1..], at + FieldSize(f), k);
    } else {
      var tail := PadFrom(rest[1..], at + gap + FieldSize(f), k + 1);
      assert done + ([Padding(k, gap), f] + tail) == (done + [Padding(k, gap), f]) + tail;
    }
  }

  lemma LaidEnd(input: seq<Field>, done: seq<Field>, at: nat, k: nat)
    requires Laid(input, done, [], at, k)
    ensures EndFrom(input, 0) == at
    ensures PadFrom(input, 0, 0) == if Gap(at) == 0 then done else done + [Padding(k, Gap(at))]
  {
  }

  /** add_padding_bytes(): pads the list in place, and returns the size and the padding at the end. */
  method AddPaddingBytes(input: seq<Field>) returns (fields: seq<Field>, structSize: nat, endPadding: nat)
    ensures fields == PadFrom(input, 0, 0)
    ensures structSize == StructSize(input)
    ensures endPadding == Gap(EndFrom(input, 0))
    decreases DepthOf(input)
  {
    hide Laid, PadFrom, EndFrom;
    fields := input;
    structSize := 0;
    var alignTo := 8;
    var i, paddingIdx := 0, 0;
    ghost var n := 0;
    LaidStart(input);
    assert input[0..] == input;
    while i < |fields|
      invariant i <= |fields| && n <= |input| && fields[i..] == input[n..]
      invariant alignTo == 8
      invariant Laid(input, fields[..i], input[n..], structSize, paddingIdx)
      decreases |input| - n
    {
      var field := fields[i];
      ghost var done := fields[..i];
      assert field == input[n..][0] == input[n] && input[n..][1..] == input[n + 1..];
      LaidStep(input, done, input[n..], structSize, paddingIdx);
      DepthOfElement(input, n);
      ghost var gap, before := GapBefore(field, structSize), structSize;
      ghost var added := if gap == 0 then [field] else [Padding(paddingIdx, gap), field];
      if !field.isHeader {
        var elementSize;
        if field.kind.Builtin? {
          elementSize := SortKey(field);
        } else {
          var numPaddingBytes := alignTo - structSize % alignTo;
          if numPaddingBytes != alignTo {
            var paddingField := Padding(paddingIdx, numPaddingBytes);
            paddingIdx := paddingIdx + 1;
            structSize := structSize + numPaddingBytes;
            fields := Insert(fields, i, paddingField);
            i := i + 1;
          }
          var _, size, _ := AddPaddingBytes(field.kind.children);
          elementSize := size;
        }
        structSize := structSize + elementSize * field.count;
      }
      i := i + 1;
      n := n + 1;
      assert structSize == before + gap + FieldSize(field);
      assert fields[..i] == done + added;
    }
    assert fields[..i] == fields && input[n..] == [];
    LaidEnd(input, fields, structSize, paddingIdx);
    var numPaddingBytes := alignTo - structSize % alignTo;
    if numPaddingBytes == alignTo {
      endPadding := 0;
    } else {
      endPadding := numPaddingBytes;
      structSize := structSize + numPaddingBytes;
      fields := fields + [Padding(paddingIdx, numPaddingBytes)];
    }
  }

  /** list.insert() */
  function Insert<T>(s: seq<T>, i: nat, x: T): (r: seq<T>)
    requires i <= |s|
    ensures |r| == |s| + 1 && r[..i] == s[..i] && r[i] == x && r[i + 1..] == s[i..]
  {
    s[..i] + [x] + s[i..]
  }

  // ---------- nothing is lost, and the sizes add up ----------

  function TotalSize(fields: seq<Field>): nat {
    if fields == [] then 0 else FieldSize(fields[0]) + TotalSize(fields[1..])
  }

  function WithoutPadding(fields: seq<Field>): seq<Field> {
    if fields == [] then []
    else (if fields[0].name.PaddingName? then [] else [fields[0]]) + WithoutPadding(fields[1..])
  }

  ghost predicate NoPadding(fields: seq<Field>) {
    forall k | 0 <= k < |fields| :: fields[k].name.Named?
  }

  /** A field of the message, or one to seven bytes of padding. */
  predicate OrdinaryOrPadding(f: Field) {
    f.name.Named? || (f == Padding(f.name.k, f.count) && 1 <= f.count <= 7)
  }

  ghost predicate OnlySmallPadding(fields: seq<Field>) {
    forall k | 0 <= k < |fields| :: OrdinaryOrPadding(fields[k])
  }

  lemma TotalSizeCons(f: Field, tail: seq<Field>)
    ensures TotalSize([f] + tail) == FieldSize(f) + TotalSize(tail)
  {
    assert ([f] + tail)[1..] == tail;
  }

  lemma WithoutPaddingCons(f: Field, tail: seq<Field>)
    ensures WithoutPadding([f] + tail) == (if f.name.PaddingName? then [] else [f]) + WithoutPadding(tail)
  {
    assert ([f] + tail)[1..] == tail;
  }

  /** PadFrom, one field at a time: `tail` is what follows the field. */
  lemma PadFromStep(fields: seq<Field>, at: nat, k: nat) returns (next: nat, k': nat, tail: seq<Field>)
    requires fields != []
    ensures next == at + GapBefore(fields[0], at) + FieldSize(fields[0])
    ensures k' == if GapBefore(fields[0], at) == 0 then k else k + 1
    ensures tail == PadFrom(fields[1..], next, k')
    ensures EndFrom(fields, at) == EndFrom(fields[1..], next)
    ensures GapBefore(fields[0], at) == 0 ==> PadFrom(fields, at, k) == [fields[0]] + tail
    ensures GapBefore(fields[0], at) != 0 ==>
              PadFrom(fields, at, k) == [Padding(k, GapBefore(fields[0], at))] + ([fields[0]] + tail)
  {
    var gap := GapBefore(fields[0], at);
    next, k' := at + gap + FieldSize(fields[0]), if gap == 0 then k else k + 1;
    tail := PadFrom(fields[1..], next, k');
    assert [Padding(k, gap), fields[0]] + tail == [Padding(k, gap)] + ([fields[0]] + tail);
  }

  /** Padding keeps the fields, and their order. */
  lemma {:induction false} PaddingKeepsFields(fields: seq<Field>, at: nat, k: nat)
    requires NoPadding(fields)
    ensures WithoutPadding(PadFrom(fields, at, k)) == fields
  {
    if fields != [] {
      var f, gap := fields[0], GapBefore(fields[0], at);
      var next, k', tail := PadFromStep(fields, at, k);
      PaddingKeepsFields(fields[1..], next, k');
      hide PadFrom, WithoutPadding;
      WithoutPaddingCons(f, tail);
      WithoutPaddingCons(Padding(k, gap), [f] + tail);
    }
  }

  /** Only paddings of one to seven bytes are added. */
  lemma {:induction false} PaddingIsSmall(fields: seq<Field>, at: nat, k: nat)
    requires NoPadding(fields)
    ensures OnlySmallPadding(PadFrom(fields, at, k))
  {
    if fields != [] {
      var next, k', tail := PadFromStep(fields, at, k);
      PaddingIsSmall(fields[1..], next, k');
      hide PadFrom;
    }
  }

  /** The numbers of the padding fields, in order. */
  function PaddingNumbers(fields: seq<Field>): seq<nat> {
    if fields == [] then []
    else (if fields[0].name.PaddingName? then [fields[0].name.k] else []) + PaddingNumbers(fields[1..])
  }

  lemma PaddingNumbersCons(f: Field, tail: seq<Field>)
    ensures PaddingNumbers([f] + tail) == (if f.name.PaddingName? then [f.name.k] else []) + PaddingNumbers(tail)
  {
    assert ([f] + tail)[1..] == tail;
  }

  function CountFrom(k: nat, n: nat): (s: seq<nat>)
    ensures |s| == n && forall i | 0 <= i < n :: s[i] == k + i
  {
    seq(n, i => k + i)
  }

  lemma CountFromCons(k: nat, n: nat)
    ensures [k] + CountFrom(k + 1, n) == CountFrom(k, n + 1)
  {
  }

  /** Paddings are numbered one after the other, so that no two have the same name. */
  lemma {:induction false} PaddingsAreNumbered(fields: seq<Field>, at: nat, k: nat) returns (n: nat)
    requires NoPadding(fields)
    ensures PaddingNumbers(PadFrom(fields, at, k)) == CountFrom(k, n)
  {
    if fields == [] {
      n := if Gap(at) == 0 then 0 else 1;
      PaddingNumbersCons(Padding(k, Gap(at)), []);
      assert CountFrom(k, n) == if Gap(at) == 0 then [] else [k];
    } else {
      var f, gap := fields[0], GapBefore(fields[0], at);
      var next, k', tail := PadFromStep(fields, at, k);
      var m := PaddingsAreNumbered(fields[1..], next, k');
      n := if gap == 0 then m else m + 1;
      hide PadFrom, PaddingNumbers;
      PaddingNumbersCons(f, tail);
      PaddingNumbersCons(Padding(k, gap), [f] + tail);
      CountFromCons(k, m);
    }
  }

  /** The padded fields, end to end, fill the struct exactly. */
  lemma {:induction false} PaddingFills(fields: seq<Field>, at: nat, k: nat)
    ensures at + TotalSize(PadFrom(fields, at, k)) == EndFrom(fields, at) + Gap(EndFrom(fields, at))
  {
    if fields == [] {
      TotalSizeCons(Padding(k, Gap(at)), []);
    } else {
      var f, gap := fields[0], GapBefore(fields[0], at);
      var next, k', tail := PadFromStep(fields, at, k);
      PaddingFills(fields[1..], next, k');
      hide PadFrom, TotalSize, EndFrom;
      TotalSizeCons(f, tail);
      TotalSizeCons(Padding(k, gap), [f] + tail);
      assert FieldSize(Padding(k, gap)) == gap;
    }
  }

  /** The struct size is a multiple of eight, and the sum of the parts. */
  lemma StructSizeIsSum(fields: seq<Field>)
    ensures StructSize(fields) % 8 == 0
    ensures StructSize(fields) == TotalSize(PadFrom(fields, 0, 0))
  {
    PaddingFills(fields, 0, 0);
  }

  // ---------- the order of the fields ----------

  /** The fields with sort key `key`, in their order. */
  function WithKey(fields: seq<Field>, key: nat): seq<Field> {
    if fields == [] then []
    else (if SortKey(fields[0]) == key then [fields[0]] else []) + WithKey(fields[1..], key)
  }

  /** sorted(fields, key=sizeof_field_type, reverse=True): stable, largest key first. */
  function SortFields(fields: seq<Field>): seq<Field> {
    WithKey(fields, 8) + WithKey(fields, 4) + WithKey(fields, 2) + WithKey(fields, 1) + WithKey(fields, 0)
  }

  /** Natural alignment of a field: its element size, or 8 for an embedded type. */
  function NaturalAlign(f: Field): (n: nat)
    ensures n == 1 || n == 2 || n == 4 || n == 8
  {
    match f.kind
    case Builtin(s) => ScalarSize(s)
    case Embedded(_) => 8
  }

  /** `at` is a multiple of n, for the alignments there are. */
  predicate Multiple(at: nat, n: nat) {
    if n == 8 then at % 8 == 0 else if n == 4 then at % 4 == 0 else if n == 2 then at % 2 == 0 else true
  }

  /** Every field, laid end to end from `at`, starts at a multiple of its alignment. */
  ghost predicate Aligned(fields: seq<Field>, at: nat) {
    fields == [] || ((fields[0].isHeader || Multiple(at, NaturalAlign(fields[0]))) && Aligned(fields[1..], at + FieldSize(fields[0])))
  }

  /** Sort keys never grow, and do not exceed `key`. */
  ghost predicate Descending(fields: seq<Field>, key: nat) {
    fields == [] || (SortKey(fields[0]) <= key && Descending(fields[1..], SortKey(fields[0])))
  }

  ghost predicate AllKey(fields: seq<Field>, key: nat) {
    forall k | 0 <= k < |fields| :: SortKey(fields[k]) == key
  }

  lemma {:induction false} WithKeyAll(fields: seq<Field>, key: nat)
    ensures AllKey(WithKey(fields, key), key)
  {
    if fields != [] {
      WithKeyAll(fields[1..], key);
    }
  }

  lemma {:induction false} DescendingPrefix(a: seq<Field>, b: seq<Field>, key: nat, above: nat)
    requires AllKey(a, key) && Descending(b, key) && key <= above
    ensures Descending(a + b, above)
  {
    if a == [] {
      assert a + b == b;
      DescendingWeaken(b, key, above);
    } else {
      DescendingPrefix(a[1..], b, key, key);
      assert (a + b)[1..] == a[1..] + b;
    }
  }

  lemma DescendingWeaken(fields: seq<Field>, key: nat, above: nat)
    requires Descending(fields, key) && key <= above
    ensures Descending(fields, above)
  {
  }

  lemma SortedDescends(fields: seq<Field>)
    ensures Descending(SortFields(fields), 8)
  {
    var k8, k4, k2, k1, k0 := WithKey(fields, 8), WithKey(fields, 4), WithKey(fields, 2), WithKey(fields, 1), WithKey(fields, 0);
    hide Descending, WithKey, SortKey;
    WithKeyAll(fields, 8);
    WithKeyAll(fields, 4);
    WithKeyAll(fields, 2);
    WithKeyAll(fields, 1);
    WithKeyAll(fields, 0);
    hide AllKey;
    EmptyDescends();
    DescendingPrefix(k0, [], 0, 1);
    assert k0 + [] == k0;
    DescendingPrefix(k1, k0, 1, 2);
    DescendingPrefix(k2, k1 + k0, 2, 4);
    DescendingPrefix(k4, k2 + (k1 + k0), 4, 8);
    DescendingPrefix(k8, k4 + (k2 + (k1 + k0)), 8, 8);
    Regroup(k8, k4, k2, k1, k0);
  }

  lemma Regroup<T>(a: seq<T>, b: seq<T>, c: seq<T>, d: seq<T>, e: seq<T>)
    ensures a + b + c + d + e == a + (b + (c + (d + e)))
  {
  }

  lemma EmptyDescends()
    ensures Descending([], 0)
  {
  }

  lemma AlignedCons(f: Field, tail: seq<Field>, at: nat)
    requires f.isHeader || Multiple(at, NaturalAlign(f))
    requires Aligned(tail, at + FieldSize(f))
    ensures Aligned([f] + tail, at)
  {
    assert ([f] + tail)[1..] == tail;
  }

  lemma FieldSizeMultiple(f: Field)
    requires f.kind.Builtin?
    ensures Multiple(FieldSize(f), SortKey(f))
  {
    var n := f.count;
    assert (8 * n) % 8 == 0 && (4 * n) % 4 == 0 && (2 * n) % 2 == 0;
    match ScalarSize(f.kind.scalar)
    case 8 => assert f.isHeader || FieldSize(f) == 8 * n;
    case 4 => assert f.isHeader || FieldSize(f) == 4 * n;
    case 2 => assert f.isHeader || FieldSize(f) == 2 * n;
    case _ =>
  }

  lemma AddMod8(a: nat, b: nat)
    requires a % 8 == 0 && b % 8 == 0
    ensures (a + b) % 8 == 0
  {
  }

  lemma AddMod4(a: nat, b: nat)
    requires a % 4 == 0 && b % 4 == 0
    ensures (a + b) % 4 == 0
  {
  }

  lemma AddMod2(a: nat, b: nat)
    requires a % 2 == 0 && b % 2 == 0
    ensures (a + b) % 2 == 0
  {
  }

  lemma MultipleAdd(a: nat, b: nat, n: nat)
    requires Multiple(a, n) && Multiple(b, n)
    ensures Multiple(a + b, n)
  {
    match n
    case 8 => AddMod8(a, b);
    case 4 => AddMod4(a, b);
    case 2 => AddMod2(a, b);
    case _ =>
  }

  /** Where a builtin field starts and where the next begins, if all fields before it were no smaller. */
  lemma BuiltinKeepsAlignment(f: Field, at: nat, key: nat)
    requires f.kind.Builtin? && SortKey(f) <= key && (key == 1 || key == 2 || key == 4 || key == 8) && Multiple(at, key)
    ensures Multiple(at, SortKey(f)) && Multiple(at + FieldSize(f), SortKey(f))
  {
    FieldSizeMultiple(f);
    MultipleAdd(at, FieldSize(f), SortKey(f));
  }

  /** Sorted fields, padded, all start at multiples of their natural alignment. */
  lemma {:induction false} PaddedFieldsAreAligned(fields: seq<Field>, at: nat, k: nat, key: nat)
    requires Descending(fields, key)
    requires key == 0 || ((key == 1 || key == 2 || key == 4 || key == 8) && Multiple(at, key))
    ensures Aligned(PadFrom(fields, at, k), at)
  {
    if fields == [] {
      AlignedCons(Padding(k, Gap(at)), [], at);
    } else {
      var f, gap := fields[0], GapBefore(fields[0], at);
      var next, k', tail := PadFromStep(fields, at, k);
      if f.kind.Builtin? {
        BuiltinKeepsAlignment(f, at, key);
      }
      hide PadFrom, Aligned, FieldSize, Multiple;
      assert Multiple(at + gap, NaturalAlign(f)) || f.isHeader by {
        GapAligns(f, at);
      }
      PaddedFieldsAreAligned(fields[1..], next, k', SortKey(f));
      AlignedCons(f, tail, at + gap);
      if gap != 0 {
        PaddingSize(k, gap);
        AlignedCons(Padding(k, gap), [f] + tail, at);
      }
    }
  }

  lemma PaddingSize(k: nat, n: nat)
    ensures FieldSize(Padding(k, n)) == n
    ensures forall at: nat :: Multiple(at, NaturalAlign(Padding(k, n)))
  {
  }

  lemma GapAligns(f: Field, at: nat)
    ensures f.kind.Embedded? && !f.isHeader ==> Multiple(at + GapBefore(f, at), NaturalAlign(f))
    ensures f.kind.Builtin? ==> GapBefore(f, at) == 0
  {
  }

  // ---------- the size does not depend on the order ----------

  lemma {:induction false} TotalSizeAppend(a: seq<Field>, b: seq<Field>)
    ensures TotalSize(a + b) == TotalSize(a) + TotalSize(b)
  {
    if a == [] {
      assert a + b == b;
    } else {
      assert (a + b)[1..] == a[1..] + b;
      TotalSizeAppend(a[1..], b);
    }
  }

  /** Sizes by sort key add up to the whole. */
  lemma {:induction false} TotalSizeByKey(fields: seq<Field>)
    ensures TotalSize(fields)
         == TotalSize(WithKey(fields, 8)) + TotalSize(WithKey(fields, 4)) + TotalSize(WithKey(fields, 2))
            + TotalSize(WithKey(fields, 1)) + TotalSize(WithKey(fields, 0))
  {
    if fields != [] {
      TotalSizeByKey(fields[1..]);
      WithKeyStep(fields, 8);
      WithKeyStep(fields, 4);
      WithKeyStep(fields, 2);
      WithKeyStep(fields, 1);
      WithKeyStep(fields, 0);
    }
  }

  lemma WithKeyStep(fields: seq<Field>, key: nat)
    requires fields != []
    ensures TotalSize(WithKey(fields, key))
         == (if SortKey(fields[0]) == key then FieldSize(fields[0]) else 0) + TotalSize(WithKey(fields[1..], key))
  {
    TotalSizeAppend(if SortKey(fields[0]) == key then [fields[0]] else [], WithKey(fields[1..], key));
    TotalSizeCons(fields[0], []);
  }

  lemma {:induction false} WithKeyCount(fields: seq<Field>, key: nat, x: Field)
    ensures multiset(WithKey(fields, key))[x] == if SortKey(x) == key then multiset(fields)[x] else 0
  {
    if fields != [] {
      WithKeyCount(fields[1..], key, x);
      assert fields == [fields[0]] + fields[1..];
      hide SortKey;
    }
  }

  lemma SortCount(fields: seq<Field>, x: Field)
    ensures multiset(SortFields(fields))[x] == multiset(fields)[x]
  {
    WithKeyCount(fields, 8, x);
    WithKeyCount(fields, 4, x);
    WithKeyCount(fields, 2, x);
    WithKeyCount(fields, 1, x);
    WithKeyCount(fields, 0, x);
    hide WithKey;
  }

  /** Sorting keeps every field. */
  lemma SortIsPermutation(fields: seq<Field>)
    ensures multiset(SortFields(fields)) == multiset(fields)
  {
    forall x: Field
      ensures multiset(SortFields(fields))[x] == multiset(fields)[x]
    {
      SortCount(fields, x);
    }
  }

  /** `at` are the positions, in order, of the fields with this sort key, and `picked` these fields. */
  ghost predicate PickedAt(fields: seq<Field>, key: nat, picked: seq<Field>, at: seq<nat>) {
    && |at| == |picked| && Increasing(at)
    && forall k | 0 <= k < |at| :: at[k] < |fields| && picked[k] == fields[at[k]] && SortKey(picked[k]) == key
  }

  lemma {:induction false} WithKeyPositions(fields: seq<Field>, key: nat) returns (at: seq<nat>)
    ensures PickedAt(fields, key, WithKey(fields, key), at)
  {
    at := [];
    if fields != [] {
      var rest := WithKeyPositions(fields[1..], key);
      var picked := WithKey(fields[1..], key);
      PickLater(fields, key, picked, rest);
      at := Shifted(rest);
      if SortKey(fields[0]) == key {
        PickFirst(fields, key, picked, at);
        at := [0] + at;
      } else {
        assert [] + picked == picked;
      }
      hide PickedAt;
    }
  }

  lemma PickLater(fields: seq<Field>, key: nat, picked: seq<Field>, at: seq<nat>)
    requires fields != [] && PickedAt(fields[1..], key, picked, at)
    ensures PickedAt(fields, key, picked, Shifted(at))
  {
  }

  lemma PickFirst(fields: seq<Field>, key: nat, picked: seq<Field>, at: seq<nat>)
    requires fields != [] && SortKey(fields[0]) == key
    requires PickedAt(fields, key, picked, at) && forall k | 0 <= k < |at| :: at[k] > 0
    ensures PickedAt(fields, key, [fields[0]] + picked, [0] + at)
  {
    var at', picked' := [0] + at, [fields[0]] + picked;
    forall k | 0 <= k < |at'|
      ensures at'[k] < |fields| && picked'[k] == fields[at'[k]] && SortKey(picked'[k]) == key
    {
      assert k > 0 ==> at'[k] == at[k - 1] && picked'[k] == picked[k - 1];
    }
  }

  /** Field k of `sorted` is field order[k] of `fields`; each is used once, and ties keep their order. */
  ghost predicate IsStable(fields: seq<Field>, sorted: seq<Field>, order: seq<nat>) {
    && |order| == |sorted|
    && (forall k | 0 <= k < |order| :: order[k] < |fields| && sorted[k] == fields[order[k]])
    && (forall k, l | 0 <= k < l < |order| :: order[k] != order[l])
    && (forall k, l | 0 <= k < l < |order| && SortKey(sorted[k]) == SortKey(sorted[l]) :: order[k] < order[l])
  }

  lemma StablePicked(fields: seq<Field>, key: nat, picked: seq<Field>, at: seq<nat>)
    requires PickedAt(fields, key, picked, at)
    ensures IsStable(fields, picked, at) && AllKey(picked, key)
  {
  }

  /** Fields with other keys can be put behind. */
  lemma StableAppend(fields: seq<Field>, a: seq<Field>, p: seq<nat>, b: seq<Field>, q: seq<nat>, key: nat)
    requires IsStable(fields, a, p) && IsStable(fields, b, q) && AllKey(b, key)
    requires forall k | 0 <= k < |a| :: SortKey(a[k]) > key
    ensures IsStable(fields, a + b, p + q)
    ensures forall k | 0 <= k < |a + b| :: SortKey((a + b)[k]) >= key
  {
    var s, order := a + b, p + q;
    forall k, l | 0 <= k < l < |order|
      ensures order[k] != order[l] && (SortKey(s[k]) == SortKey(s[l]) ==> order[k] < order[l])
    {
      if k < |a| <= l {
        assert order[k] == p[k] && order[l] == q[l - |a|] && s[k] == a[k] && s[l] == b[l - |a|];
      } else if k >= |a| {
        assert order[k] == q[k - |a|] && order[l] == q[l - |a|];
      }
    }
  }

  /** The sort is stable: fields of the same size keep their order. */
  lemma SortIsStable(fields: seq<Field>) returns (order: seq<nat>)
    ensures IsStable(fields, SortFields(fields), order)
  {
    var p8 := WithKeyPositions(fields, 8);
    var p4 := WithKeyPositions(fields, 4);
    var p2 := WithKeyPositions(fields, 2);
    var p1 := WithKeyPositions(fields, 1);
    var p0 := WithKeyPositions(fields, 0);
    hide WithKey, PickedAt, IsStable, SortKey;
    var f8, f4, f2 := WithKey(fields, 8), WithKey(fields, 4), WithKey(fields, 2);
    var f1, f0 := WithKey(fields, 1), WithKey(fields, 0);
    StablePicked(fields, 8, f8, p8);
    StablePicked(fields, 4, f4, p4);
    StablePicked(fields, 2, f2, p2);
    StablePicked(fields, 1, f1, p1);
    StablePicked(fields, 0, f0, p0);
    StableAppend(fields, f8, p8, f4, p4, 4);
    StableAppend(fields, f8 + f4, p8 + p4, f2, p2, 2);
    StableAppend(fields, f8 + f4 + f2, p8 + p4 + p2, f1, p1, 1);
    StableAppend(fields, f8 + f4 + f2 + f1, p8 + p4 + p2 + p1, f0, p0, 0);
    order := p8 + p4 + p2 + p1 + p0;
  }

  lemma SortKeepsTotalSize(fields: seq<Field>)
    ensures TotalSize(SortFields(fields)) == TotalSize(fields)
  {
    hide TotalSize, WithKey;
    var k8, k4, k2, k1, k0 := WithKey(fields, 8), WithKey(fields, 4), WithKey(fields, 2), WithKey(fields, 1), WithKey(fields, 0);
    TotalSizeByKey(fields);
    TotalSizeAppend(k8 + k4 + k2 + k1, k0);
    TotalSizeAppend(k8 + k4 + k2, k1);
    TotalSizeAppend(k8 + k4, k2);
    TotalSizeAppend(k8, k4);
  }

  lemma EmbeddedSizeMultiple(f: Field)
    requires f.kind.Embedded?
    ensures FieldSize(f) % 8 == 0
  {
    var e := StructSize(f.kind.children);
    if !f.isHeader {
      var n := e / 8;
      assert e == 8 * n && e * f.count == 8 * (n * f.count);
    }
  }

  lemma {:induction false} NoBuiltinLeft(fields: seq<Field>)
    requires Descending(fields, 0)
    ensures TotalSize(fields) % 8 == 0
  {
    if fields != [] {
      EmbeddedSizeMultiple(fields[0]);
      NoBuiltinLeft(fields[1..]);
    }
  }

  /** With the builtin fields first, padding is only what rounds up their total. */
  lemma {:induction false} SortedSize(fields: seq<Field>, at: nat, key: nat)
    requires Descending(fields, key)
    ensures
      var end, total := EndFrom(fields, at), at + TotalSize(fields);
      end + Gap(end) == total + Gap(total)
  {
    if fields != [] {
      var f, gap := fields[0], GapBefore(fields[0], at);
      var next := at + gap + FieldSize(f);
      SortedSize(fields[1..], next, SortKey(f));
      hide Descending, FieldSize, TotalSize, EndFrom, Gap;
      if f.kind.Embedded? && !f.isHeader {
        EmbeddedSizeMultiple(f);
        NoBuiltinLeft(fields[1..]);
        GapStable(at, FieldSize(f), TotalSize(fields[1..]));
      }
    }
  }

  lemma GapStable(at: nat, size: nat, rest: nat)
    requires size % 8 == 0 && rest % 8 == 0
    ensures Gap(at + size + rest) == Gap(at)
    ensures Gap(at + Gap(at) + size + rest) == 0
  {
    var n := size / 8 + rest / 8;
    assert size + rest == 8 * n;
    SameRemainder(at, n);
    SameRemainder(at + Gap(at), n);
  }

  lemma SameRemainder(at: nat, n: nat)
    ensures (at + 8 * n) % 8 == at % 8
  {
  }

  /** Between a size and its rounding there are less than eight bytes, and conversely. */
  lemma RoundedIffClose(size: nat, total: nat)
    requires size % 8 == 0 && total <= size
    ensures size == total + Gap(total) <==> size - total < 8
  {
    var q, r := total / 8, total % 8;
    assert total == 8 * q + r && size == 8 * (size / 8);
  }

  /**
   How far the runs of builtin fields between embedded ones are from multiples of eight, taken
   together; `run` bytes of the current run have gone by.
   */
  function RunGaps(fields: seq<Field>, run: nat): nat {
    if fields == [] then Gap(run)
    else
      var f, rest := fields[0], fields[1..];
      if f.isHeader then RunGaps(rest, run)
      else match f.kind
        case Builtin(s) => RunGaps(rest, run + ScalarSize(s) * f.count)
        case Embedded(_) => Gap(run) + RunGaps(rest, 0)
  }

  lemma AddSame(at: nat, run: nat, size: nat)
    requires at % 8 == run % 8
    ensures (at + size) % 8 == (run + size) % 8 && Gap(at) == Gap(run)
  {
    var a, b := at / 8, run / 8;
    assert at == 8 * a + run % 8 && run == 8 * b + run % 8;
    SameRemainder(run % 8 + size, a);
    SameRemainder(run % 8 + size, b);
  }

  lemma LayoutStep(fields: seq<Field>, at: nat)
    requires fields != []
    ensures EndFrom(fields, at) == EndFrom(fields[1..], at + GapBefore(fields[0], at) + FieldSize(fields[0]))
    ensures TotalSize(fields) == FieldSize(fields[0]) + TotalSize(fields[1..])
  {
  }

  /** One field more: where the next one starts, and what is left of the run. */
  lemma RunGapsStep(fields: seq<Field>, at: nat, run: nat) returns (run': nat)
    requires fields != [] && at % 8 == run % 8
    ensures (at + GapBefore(fields[0], at) + FieldSize(fields[0])) % 8 == run' % 8
    ensures GapBefore(fields[0], at) + RunGaps(fields[1..], run') == RunGaps(fields, run)
  {
    var f := fields[0];
    AddSame(at, run, FieldSize(f));
    if f.isHeader {
      run' := run;
    } else if f.kind.Embedded? {
      EmbeddedSizeMultiple(f);
      AddMod8(at + Gap(at), FieldSize(f));
      run' := 0;
    } else {
      run' := run + FieldSize(f);
    }
  }

  /** The gaps of the runs are all the padding there is. */
  lemma {:induction false} GapsArePadding(fields: seq<Field>, at: nat, run: nat)
    requires at % 8 == run % 8
    ensures EndFrom(fields, at) + Gap(EndFrom(fields, at)) == at + TotalSize(fields) + RunGaps(fields, run)
  {
    if fields == [] {
      AddSame(at, run, 0);
    } else {
      hide Gap, GapBefore, FieldSize, RunGaps, EndFrom, TotalSize;
      var run' := RunGapsStep(fields, at, run);
      LayoutStep(fields, at);
      GapsArePadding(fields[1..], at + GapBefore(fields[0], at) + FieldSize(fields[0]), run');
    }
  }

  /**
   The size of a nested type is computed from its fields in file order, while its own struct is
   generated from the sorted fields. The two sizes agree exactly if the runs of builtin fields in
   file order miss multiples of eight by less than eight bytes altogether.
   */
  lemma NestedSizeAgrees(fields: seq<Field>)
    ensures StructSize(fields) == StructSize(SortFields(fields)) <==> RunGaps(fields, 0) < 8
  {
    SortedDescends(fields);
    SortedSize(SortFields(fields), 0, 8);
    SortKeepsTotalSize(fields);
    StructSizeIsSum(fields);
    GapsArePadding(fields, 0, 0);
    RoundedIffClose(StructSize(fields), TotalSize(fields));
    hide SortFields, TotalSize, Descending, EndFrom, Gap, RunGaps;
  }

  function Small(name: string): Field { Field(Named(name), Builtin(UInt8), 1, false) }

  function Nested(): Field {
    Field(Named("b"), Embedded([Field(Named("timestamp"), Builtin(UInt64), 1, false)]), 1, false)
  }

  function Example(): seq<Field> { [Small("a")] + ([Nested()] + [Small("c")]) }

  lemma EndFromCons(f: Field, tail: seq<Field>, at: nat)
    ensures EndFrom([f] + tail, at) == EndFrom(tail, at + GapBefore(f, at) + FieldSize(f))
  {
    assert ([f] + tail)[1..] == tail;
  }

  lemma EndFromOne(f: Field, at: nat)
    ensures EndFrom([f], at) == at + GapBefore(f, at) + FieldSize(f)
    ensures TotalSize([f]) == FieldSize(f)
  {
  }

  lemma ExampleParts()
    ensures FieldSize(Nested()) == 8 && FieldSize(Small("a")) == 1 && FieldSize(Small("c")) == 1
    ensures GapBefore(Small("a"), 0) == 0 && GapBefore(Nested(), 1) == 7 && GapBefore(Small("c"), 16) == 0
  {
    EndFromOne(Field(Named("timestamp"), Builtin(UInt64), 1, false), 0);
  }

  /** They need not: 24 bytes in file order, 16 in the generated struct. */
  lemma NestedSizeCanDiffer()
    ensures StructSize(Example()) == 24 && StructSize(SortFields(Example())) == 16
  {
    ExampleParts();
    hide EndFrom, FieldSize, GapBefore, TotalSize, Nested, Small, SortFields, Descending;
    EndFromCons(Small("a"), [Nested()] + [Small("c")], 0);
    EndFromCons(Nested(), [Small("c")], 1);
    EndFromOne(Small("c"), 16);
    TotalSizeCons(Small("a"), [Nested()] + [Small("c")]);
    TotalSizeCons(Nested(), [Small("c")]);
    SortKeepsTotalSize(Example());
    SortedDescends(Example());
    SortedSize(SortFields(Example()), 0, 8);
  }

  lemma {:induction false} EndAfterTotal(fields: seq<Field>, at: nat)
    ensures at + TotalSize(fields) <= EndFrom(fields, at)
  {
    if fields != [] {
      EndAfterTotal(fields[1..], at + GapBefore(fields[0], at) + FieldSize(fields[0]));
    }
  }

  /** Builtin fields before embedded ones, in any order, are enough for that. */
  lemma {:induction false} BuiltinsFirstAgree(fields: seq<Field>, n: nat)
    requires n <= |fields|
    requires forall k | 0 <= k < |fields| :: fields[k].kind.Builtin? <==> k < n
    ensures RunGaps(fields, 0) < 8
  {
    GapsArePadding(fields, 0, 0);
    BuiltinsFirstSize(fields, 0, n);
  }

  lemma {:induction false} BuiltinsFirstSize(fields: seq<Field>, at: nat, n: nat)
    requires n <= |fields|
    requires forall k | 0 <= k < |fields| :: fields[k].kind.Builtin? <==> k < n
    ensures
      var end, total := EndFrom(fields, at), at + TotalSize(fields);
      end + Gap(end) == total + Gap(total)
  {
    if n == 0 {
      AllEmbeddedDescends(fields);
      SortedSize(fields, at, 0);
    } else {
      BuiltinsFirstSize(fields[1..], at + FieldSize(fields[0]), n - 1);
    }
  }

  lemma {:induction false} AllEmbeddedDescends(fields: seq<Field>)
    requires forall k | 0 <= k < |fields| :: fields[k].kind.Embedded?
    ensures Descending(fields, 0)
  {
    if fields != [] {
      AllEmbeddedDescends(fields[1..]);
    }
  }

  // ---------- the reference: how a C compiler lays out the generated struct ----------

  /** The members of the struct generated for a message. */
  function Generated(fields: seq<Field>): seq<Field> { PadFrom(SortFields(fields), 0, 0) }

  /** Width of a scalar type in C, in bits. */
  function CBits(s: Scalar): nat {
    if s.Int16? || s.UInt16? then 16
    else if s.Int32? || s.UInt32? || s.Float32? then 32
    else if s.Int64? || s.UInt64? || s.Float64? then 64
    else 8
  }

  function Max(a: nat, b: nat): nat { if a > b then a else b }

  /** Alignment of a C type: a scalar's size, or the largest alignment of a struct's members. */
  function CAlign(f: Field): nat
    decreases f, 1
  {
    match f.kind
    case Builtin(s) => CBits(s) / 8
    case Embedded(children) => CStructAlign(children)
  }

  function CStructAlign(fields: seq<Field>): nat
    decreases fields, 0
  {
    if fields == [] then 1
    else Max(if fields[0].isHeader then 1 else CAlign(fields[0]), CStructAlign(fields[1..]))
  }

  function RoundUp(at: nat, n: nat): nat {
    if Multiple(at, n) then at
    else if n == 8 then at + 8 - at % 8 else if n == 4 then at + 4 - at % 4 else at + 1
  }

  lemma {:induction false} DepthOfBound(fields: seq<Field>, d: nat)
    requires forall f | f in fields :: Depth(f) <= d
    ensures DepthOf(fields) <= d
  {
    if fields != [] {
      assert fields[0] in fields;
      DepthOfBound(fields[1..], d);
    }
  }

  lemma {:induction false} WithKeyElements(fields: seq<Field>, key: nat)
    ensures forall f | f in WithKey(fields, key) :: f in fields
  {
    if fields != [] {
      WithKeyElements(fields[1..], key);
    }
  }

  lemma SortElements(fields: seq<Field>)
    ensures forall f | f in SortFields(fields) :: f in fields
  {
    WithKeyElements(fields, 8);
    WithKeyElements(fields, 4);
    WithKeyElements(fields, 2);
    WithKeyElements(fields, 1);
    WithKeyElements(fields, 0);
  }

  lemma {:induction false} PadElements(fields: seq<Field>, at: nat, k: nat)
    ensures forall f | f in PadFrom(fields, at, k) :: f in fields || f.kind == Builtin(UInt8)
  {
    if fields != [] {
      var next, k', tail := PadFromStep(fields, at, k);
      PadElements(fields[1..], next, k');
      hide PadFrom;
    }
  }

  lemma GeneratedElements(fields: seq<Field>)
    ensures forall f | f in Generated(fields) :: f in fields || f.kind == Builtin(UInt8)
    ensures DepthOf(Generated(fields)) <= DepthOf(fields)
  {
    SortElements(fields);
    PadElements(SortFields(fields), 0, 0);
    hide SortFields, PadFrom;
    forall f | f in Generated(fields)
      ensures Depth(f) <= DepthOf(fields)
    {
      if f in fields {
        var k :| 0 <= k < |fields| && fields[k] == f;
        DepthOfElement(fields, k);
      }
    }
    DepthOfBound(Generated(fields), DepthOf(fields));
  }

  /** sizeof of one element: for an embedded type, of the struct generated for it. */
  ghost function CElementSize(f: Field): nat
    decreases Depth(f), 0, 0
  {
    match f.kind
    case Builtin(s) => CBits(s) / 8
    case Embedded(children) =>
      GeneratedElements(children);
      CStructSize(Generated(children))
  }

  /** Where the members end: each starts at the next multiple of its alignment. */
  ghost function CEnd(fields: seq<Field>, at: nat): nat
    decreases DepthOf(fields), 1, |fields|
  {
    if fields == [] then at
    else if fields[0].isHeader then CEnd(fields[1..], at)
    else CEnd(fields[1..], RoundUp(at, CAlign(fields[0])) + CElementSize(fields[0]) * fields[0].count)
  }

  ghost function CStructSize(fields: seq<Field>): nat
    decreases DepthOf(fields), 2, 0
  {
    RoundUp(CEnd(fields, 0), CStructAlign(fields))
  }

  predicate IsAlignment(n: nat) { n == 1 || n == 2 || n == 4 || n == 8 }

  lemma {:induction false} CAlignIsAlignment(f: Field)
    ensures IsAlignment(CAlign(f)) && CAlign(f) <= NaturalAlign(f)
    decreases f, 1
  {
    if f.kind.Embedded? {
      CStructAlignIsAlignment(f.kind.children);
    }
  }

  lemma {:induction false} CStructAlignIsAlignment(fields: seq<Field>)
    ensures IsAlignment(CStructAlign(fields))
    decreases fields, 0
  {
    if fields != [] {
      CAlignIsAlignment(fields[0]);
      CStructAlignIsAlignment(fields[1..]);
    }
  }

  lemma RoundUpStays(at: nat, natural: nat, n: nat)
    requires IsAlignment(n) && IsAlignment(natural) && n <= natural && Multiple(at, natural)
    ensures RoundUp(at, n) == at
  {
  }

  // ---------- the two sizes compared ----------

  ghost function CFieldSize(f: Field): nat { if f.isHeader then 0 else CElementSize(f) * f.count }

  ghost function CTotalSize(fields: seq<Field>): nat {
    if fields == [] then 0 else CFieldSize(fields[0]) + CTotalSize(fields[1..])
  }

  /** The compiler's size of the field is the computed one, or less by whole multiples of eight. */
  ghost predicate Fits(f: Field) {
    f.isHeader || (CElementSize(f) <= ElementSize(f) && (ElementSize(f) - CElementSize(f)) % 8 == 0)
  }

  ghost predicate AllFit(fields: seq<Field>) {
    forall k | 0 <= k < |fields| :: Fits(fields[k])
  }

  /** Computed and actual size agree, as far as the field takes up room at all. */
  ghost predicate SizeRight(f: Field) { f.isHeader || f.count == 0 || CElementSize(f) == ElementSize(f) }

  lemma ScaleDifference(c: nat, e: nat, n: nat)
    requires c <= e && (e - c) % 8 == 0
    ensures c * n <= e * n && (e * n - c * n) % 8 == 0
    ensures c * n == e * n <==> n == 0 || c == e
  {
    var d := (e - c) / 8;
    assert e == c + 8 * d;
    assert e * n == c * n + 8 * (d * n);
    SameRemainder(0, d * n);
    assert d * n == 0 <==> d == 0 || n == 0;
  }

  lemma FitScales(f: Field)
    requires Fits(f)
    ensures CFieldSize(f) <= FieldSize(f) && (FieldSize(f) - CFieldSize(f)) % 8 == 0
    ensures CFieldSize(f) == FieldSize(f) <==> SizeRight(f)
  {
    if !f.isHeader {
      ScaleDifference(CElementSize(f), ElementSize(f), f.count);
    }
  }

  lemma AddDifferences(a: nat, a': nat, b: nat, b': nat)
    requires a <= a' && b <= b' && (a' - a) % 8 == 0 && (b' - b) % 8 == 0
    ensures a + b <= a' + b' && (a' + b' - (a + b)) % 8 == 0
    ensures a + b == a' + b' <==> a == a' && b == b'
  {
    AddMod8(a' - a, b' - b);
    assert a' + b' - (a + b) == (a' - a) + (b' - b);
  }

  lemma {:induction false} TotalsCompare(fields: seq<Field>)
    requires AllFit(fields)
    ensures CTotalSize(fields) <= TotalSize(fields) && (TotalSize(fields) - CTotalSize(fields)) % 8 == 0
    ensures CTotalSize(fields) == TotalSize(fields) <==> forall k | 0 <= k < |fields| :: SizeRight(fields[k])
  {
    hide Fits, SizeRight, CFieldSize, FieldSize;
    if fields != [] {
      FitScales(fields[0]);
      TotalsCompare(fields[1..]);
      AddDifferences(CFieldSize(fields[0]), FieldSize(fields[0]), CTotalSize(fields[1..]), TotalSize(fields[1..]));
      assert forall k | 0 <= k < |fields| - 1 :: fields[1..][k] == fields[k + 1];
      assert (forall k | 0 <= k < |fields| :: SizeRight(fields[k]))
        <==> SizeRight(fields[0]) && forall k | 0 <= k < |fields| - 1 :: SizeRight(fields[1..][k]);
    }
  }

  lemma Below8(c: nat, d: nat)
    requires (c + 8 * d) % 8 == 0
    ensures c % 8 == 0
  {
  }

  lemma Below4(c: nat, d: nat)
    requires (c + 4 * d) % 4 == 0
    ensures c % 4 == 0
  {
  }

  lemma Below2(c: nat, d: nat)
    requires (c + 2 * d) % 2 == 0
    ensures c % 2 == 0
  {
  }

  lemma MultipleBelow(at: nat, c: nat, n: nat)
    requires IsAlignment(n) && c <= at && (at - c) % 8 == 0 && Multiple(at, n)
    ensures Multiple(c, n)
  {
    var d := (at - c) / 8;
    assert at == c + 8 * d;
    match n
    case 8 => Below8(c, d);
    case 4 => Below4(c, 2 * d);
    case 2 => Below2(c, 4 * d);
    case _ =>
  }

  /** Aligned members are laid out end to end: the compiler adds no padding of its own. */
  lemma {:induction false} NoHiddenPadding(fields: seq<Field>, at: nat, c: nat)
    requires AllFit(fields) && Aligned(fields, at) && c <= at && (at - c) % 8 == 0
    ensures CEnd(fields, c) == c + CTotalSize(fields)
  {
    if fields != [] {
      var f := fields[0];
      CAlignIsAlignment(f);
      if !f.isHeader {
        MultipleBelow(at, c, NaturalAlign(f));
        RoundUpStays(c, NaturalAlign(f), CAlign(f));
      }
      FitScales(f);
      AddDifferences(c, at, CFieldSize(f), FieldSize(f));
      hide Fits, FieldSize, NaturalAlign, Multiple, CAlign, RoundUp;
      NoHiddenPadding(fields[1..], at + FieldSize(f), c + CFieldSize(f));
    }
  }

  /** In every type nested anywhere in the fields, the gaps of its runs come to less than eight bytes. */
  ghost predicate NestedOk(fields: seq<Field>)
    decreases fields, 0
  {
    fields == [] || (FieldOk(fields[0]) && NestedOk(fields[1..]))
  }

  ghost predicate FieldOk(f: Field)
    decreases f, 1
  {
    || f.isHeader || f.count == 0 || f.kind.Builtin?
    || (RunGaps(f.kind.children, 0) < 8 && NestedOk(f.kind.children))
  }

  lemma {:induction false} NestedOkElements(fields: seq<Field>)
    ensures NestedOk(fields) <==> forall f | f in fields :: FieldOk(f)
  {
    if fields != [] {
      NestedOkElements(fields[1..]);
      NestedOkStep(fields);
      hide FieldOk, NestedOk;
      assert forall f :: f in fields <==> f == fields[0] || f in fields[1..];
    }
  }

  lemma NestedOkStep(fields: seq<Field>)
    requires fields != []
    ensures NestedOk(fields) <==> FieldOk(fields[0]) && NestedOk(fields[1..])
  {
  }

  /** The struct of the sorted fields is never the larger one. */
  lemma SortedIsNoLarger(fields: seq<Field>)
    ensures StructSize(SortFields(fields)) <= StructSize(fields)
  {
    SortedDescends(fields);
    SortedSize(SortFields(fields), 0, 8);
    SortKeepsTotalSize(fields);
    EndAfterTotal(fields, 0);
    hide EndFrom, SortFields, TotalSize;
    RoundedIffClose(StructSize(fields), TotalSize(fields));
  }

  lemma {:induction false} PadKeepsElements(fields: seq<Field>, at: nat, k: nat)
    ensures forall f | f in fields :: f in PadFrom(fields, at, k)
  {
    if fields != [] {
      var next, k', tail := PadFromStep(fields, at, k);
      PadKeepsElements(fields[1..], next, k');
      hide PadFrom;
      assert fields == [fields[0]] + fields[1..];
    }
  }

  lemma GeneratedHasAll(fields: seq<Field>)
    ensures forall f | f in fields :: f in Generated(fields)
  {
    SortIsPermutation(fields);
    PadKeepsElements(SortFields(fields), 0, 0);
    hide SortFields, PadFrom;
    forall f | f in fields
      ensures f in SortFields(fields)
    {
      assert f in multiset(fields);
    }
  }

  /**
   The struct size that add_padding_bytes reports is never less than what sizeof gives for the
   generated struct. The two are equal exactly if the runs of builtin fields in the nested types
   have gaps of less than eight bytes, and in the types nested in these, and so on.
   */
  lemma {:induction false} StructSizeIsSizeof(fields: seq<Field>)
    ensures
      var computed, actual := StructSize(SortFields(fields)), CStructSize(Generated(fields));
      && actual <= computed && (computed - actual) % 8 == 0
      && (actual == computed <==> NestedOk(fields))
    decreases DepthOf(fields), 2
  {
    hide StructSize, CStructSize, SortFields, PadFrom, NestedOk, TotalSize, CTotalSize, AllFit, SizeRight;
    var out := Generated(fields);
    SizeofGenerated(fields);
    TotalsCompare(out);
    StructSizeIsSum(SortFields(fields));
    RightIffNestedOk(fields);
  }

  lemma {:induction false} SizeofGenerated(fields: seq<Field>)
    ensures AllFit(Generated(fields)) && CStructSize(Generated(fields)) == CTotalSize(Generated(fields))
    decreases DepthOf(fields), 1, 1
  {
    hide AllFit, CEnd, CTotalSize, TotalSize, CStructAlign, StructSize, SortFields, PadFrom, Aligned, Descending;
    var out, sorted := Generated(fields), SortFields(fields);
    AllGeneratedFit(fields);
    SortedDescends(fields);
    PaddedFieldsAreAligned(sorted, 0, 0, 8);
    StructSizeIsSum(sorted);
    NoHiddenPadding(out, 0, 0);
    CStructAlignIsAlignment(out);
    TotalsCompare(out);
    MultipleBelow(TotalSize(out), CTotalSize(out), 8);
    RoundUpStays(CTotalSize(out), 8, CStructAlign(out));
  }

  /** One nested type: its actual size against the one computed in file order. */
  lemma {:induction false} NestedCompares(f: Field)
    requires f.kind.Embedded?
    ensures Fits(f) && (SizeRight(f) <==> FieldOk(f))
    decreases DepthOf(f.kind.children), 3
  {
    var children := f.kind.children;
    StructSizeIsSizeof(children);
    SortedIsNoLarger(children);
    NestedSizeAgrees(children);
    StructSizeIsSum(children);
    StructSizeIsSum(SortFields(children));
    hide StructSize, CStructSize, Generated, SortFields, NestedOk, RunGaps, TotalSize, PadFrom;
    var actual, sorted, size := CStructSize(Generated(children)), StructSize(SortFields(children)), StructSize(children);
    AddMod8Back(size, sorted, actual);
  }

  lemma AddMod8Back(size: nat, sorted: nat, actual: nat)
    requires actual <= sorted <= size && (sorted - actual) % 8 == 0 && sorted % 8 == 0 && size % 8 == 0
    ensures (size - actual) % 8 == 0
  {
  }

  lemma {:induction false} GeneratedField(fields: seq<Field>, f: Field)
    requires f in Generated(fields)
    ensures Fits(f) && (SizeRight(f) <==> FieldOk(f))
    decreases DepthOf(fields), 0
  {
    GeneratedElements(fields);
    hide Generated;
    if f.kind.Embedded? {
      var i :| 0 <= i < |fields| && fields[i] == f;
      DepthOfElement(fields, i);
      NestedCompares(f);
    }
  }

  lemma {:induction false} AllGeneratedFit(fields: seq<Field>)
    ensures AllFit(Generated(fields))
    decreases DepthOf(fields), 1, 0
  {
    var out := Generated(fields);
    forall k | 0 <= k < |out|
      ensures Fits(out[k])
    {
      GeneratedField(fields, out[k]);
    }
  }

  lemma {:induction false} RightIffNestedOk(fields: seq<Field>)
    ensures var out := Generated(fields);
      (forall k | 0 <= k < |out| :: SizeRight(out[k])) <==> NestedOk(fields)
    decreases DepthOf(fields), 1
  {
    var out := Generated(fields);
    GeneratedElements(fields);
    GeneratedHasAll(fields);
    NestedOkElements(fields);
    hide Generated, SizeRight, NestedOk;
    forall f | f in out
      ensures SizeRight(f) <==> FieldOk(f)
    {
      GeneratedField(fields, f);
    }
    assert (forall k | 0 <= k < |out| :: SizeRight(out[k])) <==> forall f | f in out :: SizeRight(f);
  }
}
