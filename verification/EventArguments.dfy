/**
 Splitting the argument list of an event call (Tools/px4events/srcparser.py, _parse_arguments) at
 commas outside brackets and string literals, against a lexer that knows which quotes of a C
 string literal are escaped.
 */
module EventArguments {

  /** The scanner's state; `prev` is the character before. */
  datatype Scan = Scan(inString: bool, bracket: int, prev: char)

  const START := Scan(false, 0, ' ')

  predicate Opens(c: char) { c == '{' || c == '(' || c == '[' }

  predicate Closes(c: char) { c == '}' || c == ')' || c == ']' }

  function Next(s: Scan, c: char): Scan {
    var inString := if s.inString then !(c == '"' && s.prev != '\\') else c == '"';
    if inString then Scan(true, s.bracket, c)
    else Scan(false, s.bracket + (if Opens(c) then 1 else 0) - (if Closes(c) then 1 else 0), c)
  }

  /** Character c, read in state s, ends an argument. */
  predicate Cuts(s: Scan, c: char) { c == ',' && !Next(s, c).inString && Next(s, c).bracket == 0 }

  function After(s: Scan, text: string): Scan
    decreases text
  {
    if text == "" then s else After(Next(s, text[0]), text[1..])
  }

  /** The arguments before stripping. */
  function Pieces(text: string, s: Scan): (r: seq<string>)
    ensures |r| > 0
  {
    if text == "" then [""]
    else
      var rest := Pieces(text[1..], Next(s, text[0]));
      if Cuts(s, text[0]) then [""] + rest else [[text[0]] + rest[0]] + rest[1..]
  }

  /** The ASCII characters that strip() takes off: tab to carriage return, the four separators, blank. */
  predicate IsSpace(c: char) { 9 <= c as int <= 13 || 28 <= c as int <= 32 }

  function StripLeft(s: string): string {
    if s != "" && IsSpace(s[0]) then StripLeft(s[1..]) else s
  }

  function StripRight(s: string): string {
    if s != "" && IsSpace(s[|s| - 1]) then StripRight(s[..|s| - 1]) else s
  }

  /** strip() */
  function Strip(s: string): string { StripRight(StripLeft(s)) }

  /** Nothing to strip at either end. */
  predicate Bare(s: string) { s == "" || (!IsSpace(s[0]) && !IsSpace(s[|s| - 1])) }

  predicate AllSpace(s: string) { forall k | 0 <= k < |s| :: IsSpace(s[k]) }

  /** The white space among the ASCII characters. */
  lemma SpacesAreListed(c: char)
    ensures IsSpace(c) <==> c in " \t\n\r\U{0B}\U{0C}\U{1C}\U{1D}\U{1E}\U{1F}"
  {
  }

  lemma {:induction false} StripLeftCut(s: string) returns (a: nat)
    ensures a <= |s| && StripLeft(s) == s[a..] && AllSpace(s[..a]) && (a < |s| ==> !IsSpace(s[a]))
  {
    a := 0;
    if s != "" && IsSpace(s[0]) {
      var n := StripLeftCut(s[1..]);
      a := n + 1;
      assert s[1..][n..] == s[a..] && s[..a] == [s[0]] + s[1..][..n];
    }
  }

  lemma {:induction false} StripRightCut(s: string) returns (b: nat)
    ensures b <= |s| && StripRight(s) == s[..b] && AllSpace(s[b..]) && (b > 0 ==> !IsSpace(s[b - 1]))
  {
    b := |s|;
    if s != "" && IsSpace(s[|s| - 1]) {
      var n := |s| - 1;
      b := StripRightCut(s[..n]);
      assert s[..n][..b] == s[..b] && s[b..] == s[..n][b..] + [s[n]];
    }
  }

  /** strip() cuts off white space at both ends, all of it, and nothing else. */
  lemma StripIsExact(s: string) returns (a: nat, b: nat)
    ensures a <= b <= |s| && Strip(s) == s[a..b]
    ensures AllSpace(s[..a]) && AllSpace(s[b..]) && Bare(s[a..b])
  {
    a := StripLeftCut(s);
    var t := s[a..];
    var n := StripRightCut(t);
    b := a + n;
    hide StripLeft, StripRight, IsSpace;
    assert s[a..b] == t[..n] && s[b..] == t[n..];
  }

  lemma BareStays(s: string)
    requires Bare(s)
    ensures Strip(s) == s
  {
  }

  function StripAll(pieces: seq<string>): (r: seq<string>)
    ensures |r| == |pieces| && forall k | 0 <= k < |pieces| :: r[k] == Strip(pieces[k])
  {
    seq(|pieces|, k requires 0 <= k < |pieces| => Strip(pieces[k]))
  }

  // ---------- the reference: string literals as C has them ----------

  /** `escaped`: in a string, and the character before was a backslash that escapes the next one. */
  datatype Lex = Lex(inString: bool, escaped: bool, bracket: int)

  const LEX_START := Lex(false, false, 0)

  function LexNext(l: Lex, c: char): Lex {
    if l.inString then
      if l.escaped then Lex(true, false, l.bracket)
      else if c == '\\' then Lex(true, true, l.bracket)
      else Lex(c != '"', false, l.bracket)
    else if c == '"' then Lex(true, false, l.bracket)
    else Lex(false, false, if c in "([{" then l.bracket + 1 else if c in ")]}" then l.bracket - 1 else l.bracket)
  }

  /** A comma outside all strings and brackets. */
  predicate LexCuts(l: Lex, c: char) { c == ',' && !l.inString && l.bracket == 0 }

  function LexAfter(l: Lex, text: string): Lex
    decreases text
  {
    if text == "" then l else LexAfter(LexNext(l, text[0]), text[1..])
  }

  function LexPieces(text: string, l: Lex): (r: seq<string>)
    ensures |r| > 0
  {
    if text == "" then [""]
    else
      var rest := LexPieces(text[1..], LexNext(l, text[0]));
      if LexCuts(l, text[0]) then [""] + rest else [[text[0]] + rest[0]] + rest[1..]
  }

  ghost predicate LexNoCut(l: Lex, text: string)
    decreases text
  {
    text == "" || (!LexCuts(l, text[0]) && LexNoCut(LexNext(l, text[0]), text[1..]))
  }

  // ---------- when the scanner sees the same ----------

  ghost predicate Agree(s: Scan, l: Lex) { s.inString == l.inString && s.bracket == l.bracket }

  /** Scanner and lexer agree before, between and after the characters of the text. */
  ghost predicate AgreeThroughout(text: string, s: Scan, l: Lex)
    decreases text
  {
    Agree(s, l) && (text != "" ==> AgreeThroughout(text[1..], Next(s, text[0]), LexNext(l, text[0])))
  }

  /** No string literal of the text ends in an escaped backslash; `prev` is the character before it. */
  ghost predicate ClosesPlainly(text: string, prev: char, l: Lex)
    decreases text
  {
    text != "" ==>
      && !(l.inString && !l.escaped && text[0] == '"' && prev == '\\')
      && ClosesPlainly(text[1..], text[0], LexNext(l, text[0]))
  }

  /** The scanner tells strings and brackets apart as C does, exactly if no literal ends in an escaped backslash. */
  lemma {:induction false} ScannerAgreesIff(text: string, s: Scan, l: Lex)
    requires Agree(s, l) && (l.escaped ==> l.inString && s.prev == '\\')
    ensures AgreeThroughout(text, s, l) <==> ClosesPlainly(text, s.prev, l)
    decreases text
  {
    if text != "" && !(l.inString && !l.escaped && text[0] == '"' && s.prev == '\\') {
      ScannerAgreesIff(text[1..], Next(s, text[0]), LexNext(l, text[0]));
    }
  }

  lemma {:induction false} AgreeingSplit(text: string, s: Scan, l: Lex)
    requires AgreeThroughout(text, s, l)
    ensures Pieces(text, s) == LexPieces(text, l)
    ensures NoCut(s, text) <==> LexNoCut(l, text)
    ensures Agree(After(s, text), LexAfter(l, text))
    decreases text
  {
    if text != "" {
      AgreeingSplit(text[1..], Next(s, text[0]), LexNext(l, text[0]));
      assert Cuts(s, text[0]) <==> LexCuts(l, text[0]);
    }
  }

  /** Under that condition the arguments are those between the commas that separate arguments in C. */
  lemma PiecesAreLexical(text: string)
    requires ClosesPlainly(text, ' ', LEX_START)
    ensures Pieces(text, START) == LexPieces(text, LEX_START)
  {
    ScannerAgreesIff(text, START, LEX_START);
    AgreeingSplit(text, START, LEX_START);
  }

  lemma NoCutCons(s: Scan, c: char, text: string)
    ensures NoCut(s, [c] + text) <==> !Cuts(s, c) && NoCut(Next(s, c), text)
  {
    assert ([c] + text)[1..] == text;
  }

  lemma LexPiecesCons(l: Lex, c: char, text: string)
    ensures
      var rest := LexPieces(text, LexNext(l, c));
      LexPieces([c] + text, l) == if LexCuts(l, c) then [""] + rest else [[c] + rest[0]] + rest[1..]
  {
    assert ([c] + text)[1..] == text;
  }

  lemma {:induction false} StaysInString(s: Scan, text: string)
    requires s.inString && '"' !in text
    ensures NoCut(s, text)
    decreases text
  {
    if text != "" {
      StaysInString(Next(s, text[0]), text[1..]);
    }
  }

  /** A literal that holds one backslash, as C has it. */
  const BACKSLASH := "\"\\\\\""

  /** The literal, a comma, and the rest. */
  function AfterBackslash(rest: string): string {
    ['"'] + (['\\'] + (['\\'] + (['"'] + ([','] + rest))))
  }

  lemma ScanAfterBackslash(rest: string)
    requires '"' !in rest
    ensures Pieces(AfterBackslash(rest), START) == [AfterBackslash(rest)]
  {
    hide NoCut, Pieces;
    var t4 := [','] + rest;
    var t3 := ['"'] + t4;
    var t2 := ['\\'] + t3;
    StaysInString(Scan(true, 0, '"'), t4);
    NoCutCons(Scan(true, 0, '\\'), '"', t4);
    NoCutCons(Scan(true, 0, '\\'), '\\', t3);
    NoCutCons(Scan(true, 0, '"'), '\\', t2);
    NoCutCons(START, '"', ['\\'] + t2);
    PiecesAtEnd(START, AfterBackslash(rest));
  }

  lemma LexAfterBackslash(rest: string)
    ensures LexPieces(AfterBackslash(rest), LEX_START) == [BACKSLASH] + LexPieces(rest, LEX_START)
  {
    hide LexPieces;
    var t4 := [','] + rest;
    var t3 := ['"'] + t4;
    var t2 := ['\\'] + t3;
    LexPiecesCons(LEX_START, ',', rest);
    LexPiecesCons(Lex(true, false, 0), '"', t4);
    LexPiecesCons(Lex(true, true, 0), '\\', t3);
    LexPiecesCons(Lex(true, false, 0), '\\', t2);
    LexPiecesCons(LEX_START, '"', ['\\'] + t2);
    assert ['"'] + (['\\'] + (['\\'] + (['"'] + ""))) == BACKSLASH;
  }

  /** The scanner never leaves that literal: what C reads as further arguments stays part of it. */
  lemma EscapedBackslashIsMisread(rest: string)
    requires '"' !in rest
    ensures Pieces(BACKSLASH + "," + rest, START) == [BACKSLASH + "," + rest]
    ensures LexPieces(BACKSLASH + "," + rest, LEX_START) == [BACKSLASH] + LexPieces(rest, LEX_START)
  {
    ScanAfterBackslash(rest);
    LexAfterBackslash(rest);
    hide Pieces, LexPieces;
    assert AfterBackslash(rest) == BACKSLASH + "," + rest;
  }

  // ---------- the scan ----------

  lemma {:induction false} AfterAppend(s: Scan, a: string, b: string)
    ensures After(s, a + b) == After(After(s, a), b)
    decreases a
  {
    if a == "" {
      assert a + b == b;
    } else {
      assert (a + b)[1..] == a[1..] + b;
      AfterAppend(Next(s, a[0]), a[1..], b);
    }
  }

  /** No character of `text`, read from state s on, ends an argument. */
  ghost predicate NoCut(s: Scan, text: string)
    decreases text
  {
    text == "" || (!Cuts(s, text[0]) && NoCut(Next(s, text[0]), text[1..]))
  }

  lemma {:induction false} NoCutExtend(s: Scan, text: string, c: char)
    requires NoCut(s, text) && !Cuts(After(s, text), c)
    ensures NoCut(s, text + [c])
    decreases text
  {
    if text != "" {
      NoCutExtend(Next(s, text[0]), text[1..], c);
      assert (text + [c])[1..] == text[1..] + [c];
    }
  }

  /** Text without a cut goes in front of the first piece of what follows. */
  lemma {:induction false} PiecesOfAppend(s: Scan, text: string, rest: string)
    requires NoCut(s, text)
    ensures
      var tail := Pieces(rest, After(s, text));
      Pieces(text + rest, s) == [text + tail[0]] + tail[1..]
    decreases text
  {
    if text == "" {
      assert text + rest == rest;
      var tail := Pieces(rest, s);
      assert text + tail[0] == tail[0] && tail == [tail[0]] + tail[1..];
    } else {
      assert (text + rest)[1..] == text[1..] + rest;
      PiecesOfAppend(Next(s, text[0]), text[1..], rest);
      var tail := Pieces(rest, After(s, text));
      assert [text[0]] + (text[1..] + tail[0]) == text + tail[0];
    }
  }

  lemma {:induction false} PiecesAtCut(s: Scan, text: string, rest: string)
    requires NoCut(s, text) && Cuts(After(s, text), ',')
    ensures Pieces(text + "," + rest, s) == [text] + Pieces(rest, Next(After(s, text), ','))
  {
    var tail := "," + rest;
    assert text + "," + rest == text + tail;
    assert tail[1..] == rest;
    PiecesOfAppend(s, text, tail);
    var cut := Pieces(tail, After(s, text));
    assert cut == [""] + Pieces(rest, Next(After(s, text), ','));
    assert text + "" == text && cut[1..] == Pieces(rest, Next(After(s, text), ','));
  }

  lemma {:induction false} PiecesAtEnd(s: Scan, text: string)
    requires NoCut(s, text)
    ensures Pieces(text, s) == [text]
  {
    PiecesOfAppend(s, text, "");
    assert text + "" == text;
  }

  /** The loop is at index i; `done` are the arguments cut off, and the current one starts at `start`. */
  ghost predicate Split(args: string, i: nat, start: nat, done: seq<string>, s: Scan) {
    && start <= i <= |args|
    && exists s0 :: SplitFrom(args, i, start, done, s, s0)
  }

  /** As Split, where s0 is the state at `start`. */
  ghost predicate SplitFrom(args: string, i: nat, start: nat, done: seq<string>, s: Scan, s0: Scan) {
    && start <= i <= |args|
    && Pieces(args, START) == done + Pieces(args[start..], s0)
    && NoCut(s0, args[start..i])
    && After(s0, args[start..i]) == s
  }

  lemma SplitStep(args: string, i: nat, start: nat, done: seq<string>, s: Scan)
    requires i < |args| && Split(args, i, start, done, s)
    ensures
      var s' := Next(s, args[i]);
      if Cuts(s, args[i]) then Split(args, i + 1, i + 1, done + [args[start..i]], s')
      else Split(args, i + 1, start, done, s')
  {
    var s0 :| SplitFrom(args, i, start, done, s, s0);
    var text, s' := args[start..i], Next(s, args[i]);
    assert args[start..i + 1] == text + [args[i]];
    if Cuts(s, args[i]) {
      var rest := args[i + 1..];
      assert args[start..] == text + "," + rest;
      PiecesAtCut(s0, text, rest);
      assert done + ([text] + Pieces(rest, s')) == (done + [text]) + Pieces(rest, s');
      assert SplitFrom(args, i + 1, i + 1, done + [text], s', s');
    } else {
      NoCutExtend(s0, text, args[i]);
      AfterAppend(s0, text, [args[i]]);
      AfterOne(s, args[i]);
      assert SplitFrom(args, i + 1, start, done, s', s0);
    }
  }

  lemma AfterOne(s: Scan, c: char)
    ensures After(s, [c]) == Next(s, c)
  {
    assert [c][1..] == "";
  }

  lemma SplitEnd(args: string, start: nat, done: seq<string>, s: Scan)
    requires Split(args, |args|, start, done, s)
    ensures Pieces(args, START) == done + [args[start..]]
  {
    var s0 :| SplitFrom(args, |args|, start, done, s, s0);
    assert args[start..|args|] == args[start..];
    PiecesAtEnd(s0, args[start..]);
  }

  /** _parse_arguments() */
  method ParseArguments(args: string) returns (argsSplit: seq<string>)
    ensures argsSplit == StripAll(Pieces(args, START))
    ensures ClosesPlainly(args, ' ', LEX_START) ==> argsSplit == StripAll(LexPieces(args, LEX_START))
  {
    if ClosesPlainly(args, ' ', LEX_START) {
      PiecesAreLexical(args);
    }
    hide Split, Pieces, Strip, StripAll;
    argsSplit := [];
    ghost var done: seq<string> := [];
    var start, bracket, inString := 0, 0, false;
    ghost var s := START;
    SplitStart(args);
    for i := 0 to |args|
      invariant start <= i
      invariant Split(args, i, start, done, s)
      invariant s.inString == inString && s.bracket == bracket && (i > 0 ==> s.prev == args[i - 1])
      invariant argsSplit == StripAll(done)
      invariant i == 0 ==> !inString
    {
      SplitStep(args, i, start, done, s);
      ghost var cut := Cuts(s, args[i]);
      s := Next(s, args[i]);
      if inString && args[i] == '"' && args[i - 1] != '\\' {
        inString := false;
      } else if !inString && args[i] == '"' {
        inString := true;
      }
      if inString {
        continue;
      }
      if Opens(args[i]) {
        bracket := bracket + 1;
      }
      if Closes(args[i]) {
        bracket := bracket - 1;
      }
      if bracket == 0 && args[i] == ',' {
        StripOneMore(done, args[start..i]);
        argsSplit := argsSplit + [Strip(args[start..i])];
        done := done + [args[start..i]];
        start := i + 1;
      }
    }
    SplitEnd(args, start, done, s);
    StripOneMore(done, args[start..]);
    argsSplit := argsSplit + [Strip(args[start..])];
  }

  lemma SplitStart(args: string)
    ensures Split(args, 0, 0, [], START)
    ensures StripAll([]) == []
  {
    assert args[0..] == args && args[0..0] == "";
    assert SplitFrom(args, 0, 0, [], START, START);
  }

  lemma StripOneMore(done: seq<string>, piece: string)
    ensures StripAll(done + [piece]) == StripAll(done) + [Strip(piece)]
  {
  }

  // ---------- nothing is lost, and lists come back ----------

  function Join(pieces: seq<string>): string {
    if pieces == [] then "" else if |pieces| == 1 then pieces[0] else pieces[0] + "," + Join(pieces[1..])
  }

  /** The pieces, with the commas put back, are the text. */
  lemma {:induction false} PiecesJoin(text: string, s: Scan)
    ensures Join(Pieces(text, s)) == text
  {
    if text != "" {
      var rest := Pieces(text[1..], Next(s, text[0]));
      PiecesJoin(text[1..], Next(s, text[0]));
      if Cuts(s, text[0]) {
        assert ([""] + rest)[1..] == rest;
      } else {
        var r := [[text[0]] + rest[0]] + rest[1..];
        assert r[1..] == rest[1..];
      }
    }
  }

  /** An argument as C has it: balanced, its literals closed, and no comma of its own at the top. */
  ghost predicate WellFormed(arg: string) {
    LexNoCut(LEX_START, arg) && var l := LexAfter(LEX_START, arg); !l.inString && l.bracket == 0
  }

  /** A well-formed argument whose literals close plainly is one piece for the scanner as well. */
  lemma WellFormedScans(arg: string)
    requires WellFormed(arg) && ClosesPlainly(arg, ' ', LEX_START)
    ensures NoCut(START, arg) && !After(START, arg).inString && After(START, arg).bracket == 0
  {
    ScannerAgreesIff(arg, START, LEX_START);
    AgreeingSplit(arg, START, LEX_START);
  }

  /** Outside a string the character before does not matter. */
  lemma {:induction false} PrevIrrelevant(text: string, s: Scan, p: char)
    requires !s.inString
    ensures Pieces(text, s) == Pieces(text, s.(prev := p))
    ensures NoCut(s, text) <==> NoCut(s.(prev := p), text)
    ensures After(s, text) == After(s.(prev := p), text) || text == ""
  {
    if text != "" {
      assert Next(s, text[0]) == Next(s.(prev := p), text[0]);
    }
  }

  /** Well-formed arguments whose literals close plainly, joined by commas, are split into themselves. */
  lemma {:induction false} JoinThenSplit(args: seq<string>)
    requires args != [] && forall k | 0 <= k < |args| :: WellFormed(args[k]) && ClosesPlainly(args[k], ' ', LEX_START)
    ensures Pieces(Join(args), START) == args
  {
    WellFormedScans(args[0]);
    if |args| == 1 {
      PiecesAtEnd(START, args[0]);
    } else {
      var rest := Join(args[1..]);
      PiecesAtCut(START, args[0], rest);
      JoinThenSplit(args[1..]);
      PrevIrrelevant(rest, START, ',');
    }
  }

  /** And if they have no space at their ends, the whole parse gives them back. */
  lemma ParseRoundTrip(args: seq<string>)
    requires args != []
    requires forall k | 0 <= k < |args| ::
               WellFormed(args[k]) && ClosesPlainly(args[k], ' ', LEX_START) && Bare(args[k])
    ensures StripAll(Pieces(Join(args), START)) == args
  {
    JoinThenSplit(args);
    forall k | 0 <= k < |args|
      ensures Strip(args[k]) == args[k]
    {
      BareStays(args[k]);
    }
    hide Strip, Pieces, Join;
  }
}
