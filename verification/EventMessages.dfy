/**
 Rewriting of argument references in event messages (Tools/px4events/srcparser.py,
 _shift_printed_arguments and prepend_arguments): when arguments are put in front, every '{<index>'
 in the text is shifted so that the text still refers to the same arguments.
 */
module EventMessages {

  predicate IsDigit(c: char) { '0' <= c <= '9' }

  ghost predicate AllDigits(s: string) { forall k | 0 <= k < |s| :: IsDigit(s[k]) }

  /** How many digits s starts with. */
  function Digits(s: string): (n: nat)
    ensures n <= |s| && AllDigits(s[..n]) && (n < |s| ==> !IsDigit(s[n]))
  {
    if s == [] || !IsDigit(s[0]) then 0
    else
      var n := Digits(s[1..]);
      assert s[..n + 1] == [s[0]] + s[1..][..n];
      n + 1
  }

  function DigitValue(c: char): (n: nat)
    requires IsDigit(c)
    ensures n < 10 && "0123456789"[n] == c
  {
    c as int - '0' as int
  }

  /** int() of a string of digits. */
  function ToNat(s: string): nat
    requires AllDigits(s)
  {
    if s == [] then 0 else ToNat(s[..|s| - 1]) * 10 + DigitValue(s[|s| - 1])
  }

  function DigitChar(n: nat): (c: char)
    requires n < 10
    ensures IsDigit(c) && DigitValue(c) == n
  {
    '0' + n as char
  }

  /** str() of a number. */
  function ToText(n: nat): (s: string)
    ensures |s| > 0 && AllDigits(s) && (|s| > 1 ==> s[0] != '0')
    ensures n > 0 ==> s[0] != '0'
  {
    if n < 10 then [DigitChar(n)] else ToText(n / 10) + [DigitChar(n % 10)]
  }

  lemma {:induction false} TextRoundTrip(n: nat)
    ensures ToNat(ToText(n)) == n
    decreases n
  {
    if n < 10 {
      assert [DigitChar(n)][..0] == [];
    } else {
      TextRoundTrip(n / 10);
      assert ToText(n)[..|ToText(n)| - 1] == ToText(n / 10);
    }
  }

  // ---------- the rewriting ----------

  /** Does s start with an argument reference? */
  predicate StartsArg(s: string) { s != [] && s[0] == '{' && Digits(s[1..]) > 0 }

  /** The text with every argument index raised by k. */
  function Shift(s: string, k: nat): string {
    if s == [] then []
    else if s[0] == '\\' then if |s| == 1 then s else s[..2] + Shift(s[2..], k)
    else if StartsArg(s) then
      var d := Digits(s[1..]);
      "{" + ToText(ToNat(s[1..][..d]) + k) + Shift(s[1..][d..], k)
    else [s[0]] + Shift(s[1..], k)
  }

  function Braces(s: string): nat {
    if s == [] then 0 else (if s[0] == '{' then 1 else 0) + Braces(s[1..])
  }

  lemma {:induction false} BracesAppend(a: string, b: string)
    ensures Braces(a + b) == Braces(a) + Braces(b)
  {
    if a == [] {
      assert a + b == b;
    } else {
      assert (a + b)[1..] == a[1..] + b;
      BracesAppend(a[1..], b);
    }
  }

  lemma {:induction false} NoBracesInDigits(s: string)
    requires AllDigits(s)
    ensures Braces(s) == 0
  {
    if s != [] {
      NoBracesInDigits(s[1..]);
    }
  }

  /** Digits outside a reference are plain text. */
  lemma {:induction false} ShiftDigits(s: string, rest: string, k: nat)
    requires AllDigits(s)
    ensures Shift(s + rest, k) == s + Shift(rest, k)
  {
    if s == [] {
      assert s + rest == rest;
    } else {
      assert (s + rest)[1..] == s[1..] + rest;
      ShiftDigits(s[1..], rest, k);
    }
  }

  /** The scan has reached position i of the changed text. */
  ghost predicate Scanned(input: string, k: nat, msg: string, i: nat) {
    if i <= |msg| then Shift(input, k) == msg[..i] + Shift(msg[i..], k) else Shift(input, k) == msg
  }

  /** References that may still be ahead. */
  ghost function Ahead(msg: string, i: nat): nat { if i <= |msg| then Braces(msg[i..]) else 0 }

  /** _shift_printed_arguments(): the string is changed, and may grow, while it is scanned. */
  method ShiftPrintedArguments(input: string, offset: nat) returns (msg: string)
    ensures msg == Shift(input, offset)
  {
    hide Shift, Braces, ToText, ToNat, Scanned, Ahead;
    msg := input;
    var i := 0;
    ScanStart(input, offset);
    while i < |msg|
      invariant i <= |msg| + 1
      invariant Scanned(input, offset, msg, i)
      decreases Ahead(msg, i), |msg| + 1 - i
    {
      if msg[i] == '\\' {
        ScanEscape(input, offset, msg, i);
        i := i + 2;
        continue;
      }
      if msg[i] == '{' {
        var d := Digits(msg[i + 1..]);
        if d > 0 {
          var text := ToText(ToNat(msg[i + 1..][..d]) + offset);
          ScanReference(input, offset, msg, i);
          msg := msg[..i + 1] + text + msg[i + 1 + d..];
          i := i + 1;
          continue;
        }
      }
      ScanPlain(input, offset, msg, i);
      i := i + 1;
    }
    ScanEnd(input, offset, msg, i);
  }

  lemma ScanStart(input: string, k: nat)
    ensures Scanned(input, k, input, 0)
  {
    assert input[0..] == input;
  }

  lemma ScanEnd(input: string, k: nat, msg: string, i: nat)
    requires Scanned(input, k, msg, i) && i >= |msg|
    ensures msg == Shift(input, k)
  {
    if i == |msg| {
      assert msg[i..] == [] && msg[..i] == msg;
    }
  }

  lemma ScanEscape(input: string, k: nat, msg: string, i: nat)
    requires i < |msg| && msg[i] == '\\' && Scanned(input, k, msg, i)
    ensures Scanned(input, k, msg, i + 2) && Ahead(msg, i + 2) <= Ahead(msg, i)
  {
    hide Shift, Braces;
    ShiftEscape(msg, i, k);
  }

  lemma ScanPlain(input: string, k: nat, msg: string, i: nat)
    requires i < |msg| && msg[i] != '\\' && !(msg[i] == '{' && Digits(msg[i + 1..]) > 0) && Scanned(input, k, msg, i)
    ensures Scanned(input, k, msg, i + 1) && Ahead(msg, i + 1) <= Ahead(msg, i)
  {
    hide Shift, Braces;
    ShiftPlain(msg, i, k);
  }

  lemma ScanReference(input: string, k: nat, msg: string, i: nat)
    requires i < |msg| && msg[i] == '{' && Digits(msg[i + 1..]) > 0 && Scanned(input, k, msg, i)
    ensures
      var d := Digits(msg[i + 1..]);
      var msg' := msg[..i + 1] + ToText(ToNat(msg[i + 1..][..d]) + k) + msg[i + 1 + d..];
      Scanned(input, k, msg', i + 1) && Ahead(msg', i + 1) < Ahead(msg, i)
  {
    hide Shift, Braces, ToText, ToNat;
    ShiftReference(msg, i, k);
  }

  lemma {:induction false} ShiftEscape(msg: string, i: nat, k: nat)
    requires i < |msg| && msg[i] == '\\'
    ensures i + 2 <= |msg| ==>
              && msg[..i] + Shift(msg[i..], k) == msg[..i + 2] + Shift(msg[i + 2..], k)
              && Braces(msg[i + 2..]) <= Braces(msg[i..])
    ensures i + 2 > |msg| ==> msg[..i] + Shift(msg[i..], k) == msg
  {
    var rest := msg[i..];
    if i + 2 <= |msg| {
      assert rest[2..] == msg[i + 2..] && msg[..i] + rest[..2] == msg[..i + 2];
      assert rest == rest[..2] + rest[2..];
      BracesAppend(rest[..2], rest[2..]);
    }
  }

  lemma {:induction false} ShiftPlain(msg: string, i: nat, k: nat)
    requires i < |msg| && msg[i] != '\\' && !(msg[i] == '{' && Digits(msg[i + 1..]) > 0)
    ensures msg[..i] + Shift(msg[i..], k) == msg[..i + 1] + Shift(msg[i + 1..], k)
    ensures Braces(msg[i + 1..]) <= Braces(msg[i..])
  {
    var rest := msg[i..];
    assert rest[1..] == msg[i + 1..] && msg[..i] + [rest[0]] == msg[..i + 1];
  }

  /** The reference at the head of s, rewritten. */
  lemma {:induction false} ShiftHead(s: string, k: nat)
    requires StartsArg(s)
    ensures
      var d := Digits(s[1..]);
      var text := ToText(ToNat(s[1..][..d]) + k);
      && Shift(s, k) == "{" + Shift(text + s[1..][d..], k)
      && Braces(text + s[1..][d..]) < Braces(s)
  {
    var after, d := s[1..], Digits(s[1..]);
    var text, tail := ToText(ToNat(after[..d]) + k), after[d..];
    hide ToText, ToNat;
    ShiftDigits(text, tail, k);
    assert "{" + text + Shift(tail, k) == "{" + (text + Shift(tail, k));
    NoBracesInDigits(text);
    BracesAppend(text, tail);
    assert after == after[..d] + tail;
    BracesAppend(after[..d], tail);
  }

  lemma {:induction false} ShiftReference(msg: string, i: nat, k: nat)
    requires i < |msg| && msg[i] == '{' && Digits(msg[i + 1..]) > 0
    ensures
      var d := Digits(msg[i + 1..]);
      var text := ToText(ToNat(msg[i + 1..][..d]) + k);
      var msg' := msg[..i + 1] + text + msg[i + 1 + d..];
      && msg[..i] + Shift(msg[i..], k) == msg'[..i + 1] + Shift(msg'[i + 1..], k)
      && Braces(msg'[i + 1..]) < Braces(msg[i..])
  {
    hide Shift, Braces, ToText, ToNat;
    var s := msg[i..];
    var d := Digits(msg[i + 1..]);
    assert s[1..] == msg[i + 1..] && s[1..][d..] == msg[i + 1 + d..];
    ShiftHead(s, k);
    var text := ToText(ToNat(msg[i + 1..][..d]) + k);
    var msg' := msg[..i + 1] + text + msg[i + 1 + d..];
    assert msg'[i + 1..] == text + s[1..][d..] && msg'[..i + 1] == msg[..i] + "{";
  }

  // ---------- shifting twice ----------

  /** Rewriting keeps the first character. */
  lemma {:induction false} ShiftKeepsHead(s: string, k: nat)
    ensures s == [] <==> Shift(s, k) == []
    ensures s != [] ==> Shift(s, k)[0] == s[0]
  {
  }

  lemma {:induction false} DigitsOfAppend(a: string, b: string)
    requires AllDigits(a) && (b != [] ==> !IsDigit(b[0]))
    ensures Digits(a + b) == |a|
  {
    if a == [] {
      assert a + b == b;
    } else {
      assert (a + b)[1..] == a[1..] + b;
      DigitsOfAppend(a[1..], b);
    }
  }

  /** A reference in canonical form, followed by no digit, is read back and rewritten. */
  lemma {:induction false} ShiftCanonical(n: nat, rest: string, k: nat)
    requires rest != [] ==> !IsDigit(rest[0])
    ensures Shift("{" + ToText(n) + rest, k) == "{" + ToText(n + k) + Shift(rest, k)
  {
    var s, text := "{" + ToText(n) + rest, ToText(n);
    assert s[1..] == text + rest;
    DigitsOfAppend(text, rest);
    assert (text + rest)[..|text|] == text && (text + rest)[|text|..] == rest;
    TextRoundTrip(n);
  }

  /** Shifting by a and then by b is shifting by a + b. */
  lemma {:induction false} ShiftTwice(s: string, a: nat, b: nat)
    ensures Shift(Shift(s, a), b) == Shift(s, a + b)
    decreases |s|
  {
    if s == [] {
    } else if s[0] == '\\' {
      if |s| > 1 {
        ShiftTwice(s[2..], a, b);
        var t := s[..2] + Shift(s[2..], a);
        assert t[..2] == s[..2] && t[2..] == Shift(s[2..], a);
      }
    } else if StartsArg(s) {
      ReferenceTwice(s, a, b);
    } else {
      PlainTwice(s, a, b);
    }
  }

  lemma ShiftOfReference(s: string, k: nat)
    requires StartsArg(s)
    ensures
      var d := Digits(s[1..]);
      Shift(s, k) == "{" + ToText(ToNat(s[1..][..d]) + k) + Shift(s[1..][d..], k)
  {
  }

  lemma {:induction false} ReferenceTwice(s: string, a: nat, b: nat)
    requires StartsArg(s)
    ensures Shift(Shift(s, a), b) == Shift(s, a + b)
    decreases |s|, 0
  {
    var d := Digits(s[1..]);
    var n, rest := ToNat(s[1..][..d]), s[1..][d..];
    ShiftTwice(rest, a, b);
    ShiftKeepsHead(rest, a);
    hide Shift, ToText, ToNat, Digits;
    ShiftOfReference(s, a);
    ShiftOfReference(s, a + b);
    ShiftCanonical(n + a, Shift(rest, a), b);
  }

  lemma {:induction false} PlainTwice(s: string, a: nat, b: nat)
    requires s != [] && s[0] != '\\' && !StartsArg(s)
    ensures Shift(Shift(s, a), b) == Shift(s, a + b)
    decreases |s|, 0
  {
    ShiftTwice(s[1..], a, b);
    ShiftKeepsHead(s[1..], a);
    var t := [s[0]] + Shift(s[1..], a);
    assert t[1..] == Shift(s[1..], a);
    assert s[0] == '{' ==> Digits(s[1..]) == 0;
    assert !StartsArg(t);
  }

  // ---------- what a text means ----------

  /** A text as its reader sees it: escaped characters, references to arguments, other characters. */
  datatype Token = Escaped(text: string) | Arg(index: nat) | Plain(c: char)

  function Tokens(s: string): seq<Token> {
    if s == [] then []
    else if s[0] == '\\' then if |s| == 1 then [Escaped(s)] else [Escaped(s[..2])] + Tokens(s[2..])
    else if StartsArg(s) then
      var d := Digits(s[1..]);
      [Arg(ToNat(s[1..][..d]))] + Tokens(s[1..][d..])
    else [Plain(s[0])] + Tokens(s[1..])
  }

  function Raise(t: Token, k: nat): Token { if t.Arg? then Arg(t.index + k) else t }

  function RaiseAll(ts: seq<Token>, k: nat): (r: seq<Token>)
    ensures |r| == |ts| && forall i | 0 <= i < |ts| :: r[i] == Raise(ts[i], k)
  {
    if ts == [] then [] else [Raise(ts[0], k)] + RaiseAll(ts[1..], k)
  }

  lemma {:induction false} TokensOfReference(n: nat, rest: string)
    requires rest != [] ==> !IsDigit(rest[0])
    ensures Tokens("{" + ToText(n) + rest) == [Arg(n)] + Tokens(rest)
  {
    var s, text := "{" + ToText(n) + rest, ToText(n);
    assert s[1..] == text + rest;
    DigitsOfAppend(text, rest);
    assert (text + rest)[..|text|] == text && (text + rest)[|text|..] == rest;
    TextRoundTrip(n);
  }

  lemma RaiseAllCons(t: Token, ts: seq<Token>, k: nat)
    ensures RaiseAll([t] + ts, k) == [Raise(t, k)] + RaiseAll(ts, k)
  {
    assert ([t] + ts)[1..] == ts;
  }

  /** Rewriting raises every reference and leaves everything else, escaped characters included, alone. */
  lemma {:induction false} ShiftRaisesReferences(s: string, k: nat)
    ensures Tokens(Shift(s, k)) == RaiseAll(Tokens(s), k)
    decreases |s|
  {
    if s == [] {
    } else if s[0] == '\\' {
      if |s| > 1 {
        ShiftRaisesReferences(s[2..], k);
        var t := s[..2] + Shift(s[2..], k);
        assert t[..2] == s[..2] && t[2..] == Shift(s[2..], k);
        RaiseAllCons(Escaped(s[..2]), Tokens(s[2..]), k);
      }
    } else if StartsArg(s) {
      var d := Digits(s[1..]);
      var n, rest := ToNat(s[1..][..d]), s[1..][d..];
      ShiftRaisesReferences(rest, k);
      ShiftKeepsHead(rest, k);
      TokensOfReference(n + k, Shift(rest, k));
      RaiseAllCons(Arg(n), Tokens(rest), k);
    } else {
      PlainRaises(s, k);
    }
  }

  lemma {:induction false} PlainRaises(s: string, k: nat)
    requires s != [] && s[0] != '\\' && !StartsArg(s)
    ensures Tokens(Shift(s, k)) == RaiseAll(Tokens(s), k)
    decreases |s|, 0
  {
    ShiftRaisesReferences(s[1..], k);
    ShiftKeepsHead(s[1..], k);
    var t := [s[0]] + Shift(s[1..], k);
    assert t[1..] == Shift(s[1..], k);
    assert s[0] == '{' ==> Digits(s[1..]) == 0;
    assert !StartsArg(t);
    RaiseAllCons(Plain(s[0]), Tokens(s[1..]), k);
  }

  /** What is printed for a token: text, the value of an argument, or an unresolved reference. */
  datatype Piece<A> = Text(t: Token) | Value(a: A) | Unresolved

  /** References count arguments from `base` (0 or 1, as the reader of the text has it). */
  function Print<A>(t: Token, args: seq<A>, base: nat): Piece<A> {
    if !t.Arg? then Text(t)
    else if base <= t.index < base + |args| then Value(args[t.index - base])
    else Unresolved
  }

  ghost predicate PrintsTheSame<A>(s: string, args: seq<A>, s': string, args': seq<A>, base: nat) {
    && |Tokens(s)| == |Tokens(s')|
    && forall i | 0 <= i < |Tokens(s)| :: Print(Tokens(s)[i], args, base) == Print(Tokens(s')[i], args', base)
  }

  /**
   Putting arguments in front and shifting the text leaves what is printed unchanged, exactly if no
   reference below `base` is lifted onto one of the new arguments.
   */
  lemma PrependKeepsMeaning<A>(s: string, args: seq<A>, added: seq<A>, base: nat)
    ensures PrintsTheSame(s, args, Shift(s, |added|), added + args, base)
       <==> forall i | 0 <= i < |Tokens(s)| && Tokens(s)[i].Arg? ::
              Tokens(s)[i].index >= base || Tokens(s)[i].index + |added| < base
  {
    ShiftRaisesReferences(s, |added|);
    var ts, ts' := Tokens(s), Tokens(Shift(s, |added|));
    hide Tokens, Shift, Print, Raise;
    forall i | 0 <= i < |ts|
      ensures Print(ts[i], args, base) == Print(ts'[i], added + args, base)
         <==> (!ts[i].Arg? || ts[i].index >= base || ts[i].index + |added| < base)
    {
      PrintRaised(ts[i], args, added, base);
    }
  }

  lemma PrintRaised<A>(t: Token, args: seq<A>, added: seq<A>, base: nat)
    ensures Print(t, args, base) == Print(Raise(t, |added|), added + args, base)
       <==> (!t.Arg? || t.index >= base || t.index + |added| < base)
  {
  }

  /** A reference one below the first argument, as in a text that counts from 1, ends up on the new argument. */
  lemma ReferenceIsCaptured<A>(n: nat, args: seq<A>, added: A)
    ensures
      var text := "{" + ToText(n) + "}";
      !PrintsTheSame(text, args, Shift(text, 1), [added] + args, n + 1)
  {
    var text := "{" + ToText(n) + "}";
    TokensOfReference(n, "}");
    PrependKeepsMeaning(text, args, [added], n + 1);
    hide Tokens, Shift, PrintsTheSame;
    assert Tokens(text)[0] == Arg(n);
  }

  // ---------- the event ----------

  datatype Option<T> = None | Some(value: T)

  class Event<A> {
    var arguments: seq<A>
    var message: Option<string>
    var description: Option<string>

    /** prepend_arguments() */
    method PrependArguments(added: seq<A>)
      modifies this
      ensures arguments == added + old(arguments)
      ensures message == if old(message).None? then None else Some(Shift(old(message).value, |added|))
      ensures description == if old(description).None? then None else Some(Shift(old(description).value, |added|))
    {
      arguments := added + arguments;
      var numAdded := |added|;
      if message.Some? {
        var text := ShiftPrintedArguments(message.value, numAdded);
        message := Some(text);
      }
      if description.Some? {
        var text := ShiftPrintedArguments(description.value, numAdded);
        description := Some(text);
      }
    }
  }
}
