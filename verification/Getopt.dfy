/**
 px4_getopt (platforms/common/px4_getopt.c): argv is first rearranged in place so that options and
 their arguments come before all other words, and is then parsed one option per call. Both
 passes are proved against a one-pass tokenizer of the original words.
 */
module Getopt {
  import opened Positions

  /** A C string pointer. Strings hold no NUL; reading one past the last character gives NUL. */
  datatype Ptr = Null | Str(s: string)

  const NUL: char := '\0'

  /** s[k], including the terminator. */
  function At(s: string, k: nat): char { if k < |s| then s[k] else NUL }

  predicate CString(s: string) { NUL !in s }

  // ---------- isvalidopt ----------

  /** In the option list, a colon follows the first occurrence of letter p. */
  predicate WithArgument(p: char, options: string) {
    exists k | 0 <= k < |options| - 1 :: FirstAt(p, options, k) && options[k + 1] == ':'
  }

  predicate FirstAt(p: char, options: string, k: int) {
    0 <= k < |options| && options[k] == p && p !in options[..k]
  }

  method IsValidOpt(p: char, options: string) returns (c: char, takesArg: bool)
    requires CString(options)
    ensures c == if p in options then p else '?'
    ensures takesArg <==> WithArgument(p, options)
  {
    var idx := 0;
    takesArg := false;
    while At(options, idx) != NUL && p != At(options, idx)
      invariant idx <= |options| && p !in options[..idx]
      decreases |options| - idx
    {
      idx := idx + 1;
    }
    if At(options, idx) == NUL {
      assert options[..idx] == options;
      return '?', false;
    }
    assert FirstAt(p, options, idx);
    FirstIsUnique(p, options, idx);
    if At(options, idx + 1) == ':' {
      takesArg := true;
    }
    c := options[idx];
  }

  lemma FirstIsUnique(p: char, options: string, k: int)
    requires FirstAt(p, options, k)
    ensures forall l | FirstAt(p, options, l) :: l == k
  {
    forall l | FirstAt(p, options, l)
      ensures l == k
    {
      if k < l {
        OccursBefore(p, options, k, l);
      } else if l < k {
        OccursBefore(p, options, l, k);
      }
    }
  }

  lemma OccursBefore(p: char, options: string, k: int, l: int)
    requires 0 <= k < l <= |options| && options[k] == p
    ensures p in options[..l]
  {
    assert options[..l][k] == p;
  }

  // ---------- the words, in one pass ----------

  predicate IsOption(word: string) { At(word, 0) == '-' }

  /** The letter after the dash, or '?' if it is not in the option list. */
  function OptChar(word: string, options: string): char { if At(word, 1) in options then At(word, 1) else '?' }

  predicate TakesArg(word: string, options: string) { WithArgument(At(word, 1), options) }

  datatype Token = Token(opt: char, arg: Ptr)

  datatype Tokens = BadOption | Tokens(list: seq<Token>)

  /** The reference: read the words once, left to right, skipping the ones that are not options. */
  function Tokenize(words: seq<string>, options: string): Tokens {
    if words == [] then Tokens([])
    else if !IsOption(words[0]) then Tokenize(words[1..], options)
    else if OptChar(words[0], options) == '?' then BadOption
    else if !TakesArg(words[0], options) then Prepend(Token(OptChar(words[0], options), Null), Tokenize(words[1..], options))
    else if |words| == 1 then BadOption
    else Prepend(Token(OptChar(words[0], options), Str(words[1])), Tokenize(words[2..], options))
  }

  function Prepend(t: Token, rest: Tokens): Tokens {
    match rest
    case BadOption => BadOption
    case Tokens(list) => Tokens([t] + list)
  }

  /** For each word, whether it is an option or an option's argument. */
  function Marks(words: seq<string>, options: string): (m: seq<bool>)
    ensures |m| == |words|
  {
    if words == [] then []
    else if !IsOption(words[0]) then [false] + Marks(words[1..], options)
    else if !TakesArg(words[0], options) || |words| == 1 then [true] + Marks(words[1..], options)
    else [true, true] + Marks(words[2..], options)
  }

  /** The words marked `keep`, in their order. */
  function Keep(words: seq<string>, marks: seq<bool>, keep: bool): (r: seq<string>)
    requires |words| == |marks|
  {
    if words == [] then []
    else (if marks[0] == keep then [words[0]] else []) + Keep(words[1..], marks[1..], keep)
  }

  function Front(words: seq<string>, options: string): seq<string> { Keep(words, Marks(words, options), true) }

  function Back(words: seq<string>, options: string): seq<string> { Keep(words, Marks(words, options), false) }

  function Reordered(words: seq<string>, options: string): seq<string> {
    Front(words, options) + Back(words, options)
  }

  // ---------- what the rearranged words are ----------

  lemma {:induction false} KeepSplits(words: seq<string>, marks: seq<bool>)
    requires |words| == |marks|
    ensures |Keep(words, marks, true)| + |Keep(words, marks, false)| == |words|
    ensures multiset(Keep(words, marks, true)) + multiset(Keep(words, marks, false)) == multiset(words)
  {
    if words != [] {
      KeepSplits(words[1..], marks[1..]);
      assert words == [words[0]] + words[1..];
    }
  }

  /** Rearranging loses no word and adds none. */
  lemma ReorderedIsPermutation(words: seq<string>, options: string)
    ensures |Reordered(words, options)| == |words|
    ensures multiset(Reordered(words, options)) == multiset(words)
  {
    KeepSplits(words, Marks(words, options));
  }

  /** `picked` are the words at the positions `at`, in the order of the words. */
  ghost predicate PickedAt(words: seq<string>, picked: seq<string>, at: seq<nat>) {
    && |at| == |picked| && Increasing(at)
    && forall k | 0 <= k < |at| :: at[k] < |words| && picked[k] == words[at[k]]
  }

  lemma {:induction false} KeepPositions(words: seq<string>, marks: seq<bool>, keep: bool) returns (at: seq<nat>)
    requires |words| == |marks|
    ensures PickedAt(words, Keep(words, marks, keep), at)
    ensures forall i | 0 <= i < |words| :: i in at <==> marks[i] == keep
  {
    at := [];
    if words != [] {
      var rest := KeepPositions(words[1..], marks[1..], keep);
      KeepStep(words, marks, keep);
      hide Keep, PickedAt, Increasing;
      if marks[0] == keep {
        at := [0] + Shifted(rest);
        PickFirst(words, Keep(words[1..], marks[1..], keep), rest);
      } else {
        at := Shifted(rest);
        PickLater(words, Keep(words[1..], marks[1..], keep), rest);
      }
      forall i | 0 <= i < |words|
        ensures i in at <==> marks[i] == keep
      {
        ShiftedHas(rest, i);
        assert i > 0 ==> marks[1..][i - 1] == marks[i];
      }
    }
  }

  lemma PickLater(words: seq<string>, picked: seq<string>, at: seq<nat>)
    requires words != [] && PickedAt(words[1..], picked, at)
    ensures PickedAt(words, picked, Shifted(at)) && PickedAt(words, [] + picked, Shifted(at))
  {
    assert [] + picked == picked;
  }

  lemma PickFirst(words: seq<string>, picked: seq<string>, at: seq<nat>)
    requires words != [] && PickedAt(words[1..], picked, at)
    ensures PickedAt(words, [words[0]] + picked, [0] + Shifted(at))
  {
    PickLater(words, picked, at);
    PickCons(words, picked, Shifted(at));
  }

  lemma PickCons(words: seq<string>, picked: seq<string>, at: seq<nat>)
    requires words != [] && PickedAt(words, picked, at) && forall k | 0 <= k < |at| :: at[k] > 0
    ensures PickedAt(words, [words[0]] + picked, [0] + at)
  {
    var at', picked' := [0] + at, [words[0]] + picked;
    forall k | 0 <= k < |at'|
      ensures at'[k] < |words| && picked'[k] == words[at'[k]]
    {
      assert k > 0 ==> at'[k] == at[k - 1] && picked'[k] == picked[k - 1];
    }
  }

  lemma KeepStep(words: seq<string>, marks: seq<bool>, keep: bool)
    requires |words| == |marks| && words != []
    ensures Keep(words, marks, keep) == (if marks[0] == keep then [words[0]] else []) + Keep(words[1..], marks[1..], keep)
  {
  }

  lemma ShiftedHas(s: seq<nat>, i: nat)
    ensures i in Shifted(s) <==> i > 0 && i - 1 in s
  {
    if i > 0 && i - 1 in s {
      var k :| 0 <= k < |s| && s[k] == i - 1;
      assert Shifted(s)[k] == i;
    }
  }

  /** Options with their arguments, and the other words, both keep their order. */
  lemma ReorderedKeepsOrder(words: seq<string>, options: string) returns (front: seq<nat>, back: seq<nat>)
    ensures |front| <= |Reordered(words, options)|
    ensures PickedAt(words, Reordered(words, options)[..|front|], front)
    ensures PickedAt(words, Reordered(words, options)[|front|..], back)
    ensures forall i | 0 <= i < |words| :: i in front <==> i !in back
    ensures forall i | 0 <= i < |words| :: i in front <==> Marks(words, options)[i]
  {
    var marks := Marks(words, options);
    front := KeepPositions(words, marks, true);
    back := KeepPositions(words, marks, false);
    hide Marks, Keep;
    assert Reordered(words, options)[..|front|] == Front(words, options);
    assert Reordered(words, options)[|front|..] == Back(words, options);
  }

  ghost predicate NoOptions(words: seq<string>) {
    forall k | 0 <= k < |words| :: !IsOption(words[k])
  }

  lemma {:induction false} NoOptionsTokenize(words: seq<string>, options: string)
    requires NoOptions(words)
    ensures Tokenize(words, options) == Tokens([])
    ensures Front(words, options) == [] && Back(words, options) == words
  {
    if words != [] {
      NoOptionsTokenize(words[1..], options);
      FrontBackStep(words, options);
      hide Front, Back, Marks;
    }
  }

  /** How many words the option at the head takes up. */
  function Width(words: seq<string>, options: string): (n: nat)
    requires words != [] && IsOption(words[0])
    ensures 1 <= n <= |words|
  {
    if TakesArg(words[0], options) && |words| > 1 then 2 else 1
  }

  /** Front and Back, one option or one other word at a time. */
  lemma FrontBackStep(words: seq<string>, options: string)
    requires words != []
    ensures !IsOption(words[0]) ==>
              && Front(words, options) == Front(words[1..], options)
              && Back(words, options) == [words[0]] + Back(words[1..], options)
    ensures IsOption(words[0]) ==>
              var n := Width(words, options);
              && Front(words, options) == words[..n] + Front(words[n..], options)
              && Back(words, options) == Back(words[n..], options)
  {
    var marks := Marks(words, options);
    if !IsOption(words[0]) {
      assert marks[1..] == Marks(words[1..], options);
    } else if Width(words, options) == 1 {
      assert marks[1..] == Marks(words[1..], options);
      assert words[..1] == [words[0]];
    } else {
      var rest := Marks(words[2..], options);
      assert marks == [true, true] + rest && marks[1..] == [true] + rest && marks[1..][1..] == rest;
      assert words[1..][1..] == words[2..];
      assert words[..2] == [words[0]] + [words[1]];
      assert Keep(words[1..], marks[1..], true) == [words[1]] + Keep(words[2..], rest, true);
      assert Keep(words[1..], marks[1..], false) == Keep(words[2..], rest, false);
    }
  }

  predicate Good(words: seq<string>, options: string) { Tokenize(words, options).Tokens? }

  lemma GoodStep(words: seq<string>, options: string)
    requires words != [] && Good(words, options)
    ensures !IsOption(words[0]) ==> Good(words[1..], options)
    ensures IsOption(words[0]) ==>
              var n := Width(words, options);
              && (n == 2 <==> TakesArg(words[0], options))
              && Good(words[n..], options)
              && Tokenize(words, options).list
                 == [Token(OptChar(words[0], options), if n == 2 then Str(words[1]) else Null)] + Tokenize(words[n..], options).list
  {
  }

  lemma GoodIff(words: seq<string>, options: string)
    requires words != []
    ensures !IsOption(words[0]) ==> (Good(words, options) <==> Good(words[1..], options))
    ensures IsOption(words[0]) ==>
              (Good(words, options) <==>
                 && OptChar(words[0], options) != '?'
                 && (TakesArg(words[0], options) ==> |words| > 1)
                 && Good(words[Width(words, options)..], options))
  {
  }

  lemma {:induction false} BackHasNoOptions(words: seq<string>, options: string)
    ensures NoOptions(Back(words, options))
    decreases |words|
  {
    if words != [] {
      FrontBackStep(words, options);
      if IsOption(words[0]) {
        BackHasNoOptions(words[Width(words, options)..], options);
      } else {
        BackHasNoOptions(words[1..], options);
      }
    }
  }

  /** Options with their arguments in front of words that are not options read the same as before. */
  lemma {:induction false} FrontThenPlain(words: seq<string>, plain: seq<string>, options: string)
    requires Good(words, options) && NoOptions(plain)
    ensures
      var v := Front(words, options) + plain;
      && Tokenize(v, options) == Tokenize(words, options)
      && Front(v, options) == Front(words, options)
      && Back(v, options) == plain
    decreases |words|
  {
    if words == [] {
      assert [] + plain == plain;
      NoOptionsTokenize(plain, options);
    } else {
      FrontBackStep(words, options);
      GoodStep(words, options);
      if !IsOption(words[0]) {
        FrontThenPlain(words[1..], plain, options);
      } else {
        OptionThenPlain(words, plain, options);
      }
    }
  }

  /** Reading starts the same if the first option and its argument are the same. */
  lemma SameHead(words: seq<string>, v: seq<string>, options: string)
    requires Good(words, options) && words != [] && IsOption(words[0])
    requires
      var n := Width(words, options);
      n <= |v| && v[..n] == words[..n] && Tokenize(v[n..], options) == Tokenize(words[n..], options)
    ensures v != [] && v[0] == words[0] && Width(v, options) == Width(words, options)
    ensures Tokenize(v, options) == Tokenize(words, options)
  {
    var n := Width(words, options);
    GoodStep(words, options);
    assert v[..n][0] == words[..n][0];
    if n == 2 {
      assert v[..n][1] == words[..n][1];
    }
  }

  lemma {:induction false} OptionThenPlain(words: seq<string>, plain: seq<string>, options: string)
    requires Good(words, options) && NoOptions(plain) && words != [] && IsOption(words[0])
    ensures
      var v := Front(words, options) + plain;
      && Tokenize(v, options) == Tokenize(words, options)
      && Front(v, options) == Front(words, options)
      && Back(v, options) == plain
    decreases |words|, 0
  {
    hide Front, Back, Tokenize;
    var n := Width(words, options);
    FrontBackStep(words, options);
    GoodStep(words, options);
    FrontThenPlain(words[n..], plain, options);
    var v, rest := Front(words, options) + plain, Front(words[n..], options) + plain;
    assert v == words[..n] + rest;
    assert v[n..] == rest && v[..n] == words[..n];
    SameHead(words, v, options);
    FrontBackStep(v, options);
  }

  /** The words as a tokenizer sees them do not change, and rearranging again changes nothing. */
  lemma ReorderedReadsTheSame(words: seq<string>, options: string)
    requires Good(words, options)
    ensures Tokenize(Reordered(words, options), options) == Tokenize(words, options)
    ensures Front(Reordered(words, options), options) == Front(words, options)
    ensures Back(Reordered(words, options), options) == Back(words, options)
    ensures Reordered(Reordered(words, options), options) == Reordered(words, options)
  {
    BackHasNoOptions(words, options);
    FrontThenPlain(words, Back(words, options), options);
  }

  // ---------- argv in place ----------

  /** argc words and a terminating null pointer. */
  ghost predicate IsArgv(a: seq<Ptr>, argc: nat) {
    && argc >= 1 && |a| == argc + 1 && a[argc] == Null
    && forall k | 0 <= k < argc :: a[k].Str?
  }

  /** The words after the program name. */
  ghost function Words(a: seq<Ptr>, argc: nat): (w: seq<string>)
    requires IsArgv(a, argc)
    ensures |w| == argc - 1
  {
    seq(argc - 1, k requires 0 <= k < argc - 1 => a[k + 1].s)
  }

  ghost function Ptrs(words: seq<string>): (r: seq<Ptr>)
    ensures |r| == |words|
  {
    seq(|words|, k requires 0 <= k < |words| => Str(words[k]))
  }

  /** The first n places of t, after the program name's, hold the words `done`. */
  ghost predicate Holds(t: seq<Ptr>, n: nat, done: seq<string>) {
    n == 1 + |done| <= |t| && t[1..n] == Ptrs(done)
  }

  lemma HoldsPut(t: seq<Ptr>, n: nat, done: seq<string>, word: string)
    requires Holds(t, n, done) && n < |t|
    ensures Holds(t[n := Str(word)], n + 1, done + [word])
  {
    assert t[n := Str(word)][1..n + 1] == t[1..n] + [Str(word)];
    assert Ptrs(done + [word]) == Ptrs(done) + [Str(word)];
  }

  /** The next place of the temporary array is filled in. */
  method Put(tmp: array<Ptr>, n: nat, p: Ptr, ghost done: seq<string>, ghost word: string) returns (next: nat)
    requires Holds(tmp[..], n, done) && n < tmp.Length && p == Str(word)
    modifies tmp
    ensures next == n + 1 && Holds(tmp[..], next, done + [word])
  {
    HoldsPut(tmp[..], n, done, word);
    hide Holds;
    ghost var t := tmp[..];
    tmp[n] := p;
    assert tmp[..] == t[n := p];
    next := n + 1;
  }

  lemma HoldsNothing(t: seq<Ptr>)
    requires |t| >= 1
    ensures Holds(t, 1, [])
  {
  }

  lemma NothingLeft(options: string)
    ensures Good([], options) && Front([], options) == [] && Back([], options) == []
  {
  }

  /** The first loop is at word `at` and has moved `done`. */
  ghost predicate Moved(words: seq<string>, options: string, at: nat, done: seq<string>) {
    && at <= |words|
    && Front(words, options) == done + Front(words[at..], options)
    && (Good(words, options) <==> Good(words[at..], options))
  }

  lemma MovedStart(words: seq<string>, options: string)
    ensures Moved(words, options, 0, [])
  {
    assert words[0..] == words;
  }

  lemma MovedEnd(words: seq<string>, options: string, done: seq<string>)
    requires Moved(words, options, |words|, done)
    ensures Good(words, options) && Front(words, options) == done
  {
    assert words[|words|..] == [];
  }

  lemma MovedOther(words: seq<string>, options: string, at: nat, done: seq<string>)
    requires Moved(words, options, at, done) && at < |words| && !IsOption(words[at])
    ensures Moved(words, options, at + 1, done)
  {
    var rest := words[at..];
    FrontBackStep(rest, options);
    GoodIff(rest, options);
    assert rest[1..] == words[at + 1..];
  }

  lemma SliceOfSlice(words: seq<string>, at: nat, n: nat)
    requires at + n <= |words|
    ensures words[at..][n..] == words[at + n..] && words[at..][..n] == words[at..at + n]
  {
  }

  lemma MovedOption(words: seq<string>, options: string, at: nat, done: seq<string>)
    requires Moved(words, options, at, done) && at < |words| && IsOption(words[at])
    ensures
      var bad := OptChar(words[at], options) == '?' || (TakesArg(words[at], options) && at + 1 == |words|);
      var n := if TakesArg(words[at], options) then 2 else 1;
      if bad then !Good(words, options)
      else at + n <= |words| && Moved(words, options, at + n, done + words[at..at + n])
  {
    var rest := words[at..];
    FrontBackStep(rest, options);
    GoodIff(rest, options);
    var n := Width(rest, options);
    SliceOfSlice(words, at, n);
    hide Front, Good, Width, WithArgument;
    assert done + (rest[..n] + Front(rest[n..], options)) == (done + rest[..n]) + Front(rest[n..], options);
  }

  /** reorder(), first loop: the options and their arguments, or failure. */
  method MoveOptions(argc: nat, argv: array<Ptr>, options: string, tmp: array<Ptr>)
    returns (ok: bool, tmpidx: nat)
    requires IsArgv(argv[..], argc) && CString(options) && tmp != argv && tmp.Length == argc
    modifies tmp
    ensures ok == Good(Words(argv[..], argc), options)
    ensures ok ==> Holds(tmp[..], tmpidx, Front(Words(argv[..], argc), options))
  {
    hide Moved, Front, Good, WithArgument, Holds;
    ghost var words := Words(argv[..], argc);
    var idx := 1;
    tmpidx := 1;
    ghost var done: seq<string> := [];
    MovedStart(words, options);
    HoldsNothing(tmp[..]);
    while idx < argc && argv[idx] != Null
      invariant 1 <= tmpidx <= idx <= argc
      invariant Holds(tmp[..], tmpidx, done)
      invariant Moved(words, options, idx - 1, done)
      decreases argc - idx
    {
      ghost var at := idx - 1;
      if At(argv[idx].s, 0) == '-' {
        MovedOption(words, options, at, done);
        var c, takesArg := IsValidOpt(At(argv[idx].s, 1), options);
        if c == '?' {
          return false, tmpidx;
        }
        tmpidx := Put(tmp, tmpidx, argv[idx], done, words[at]);
        if takesArg {
          if idx + 1 >= argc {
            return false, tmpidx;
          }
          tmpidx := Put(tmp, tmpidx, argv[idx + 1], done + [words[at]], words[at + 1]);
          idx := idx + 1;
          assert words[at..at + 2] == [words[at]] + [words[at + 1]];
          assert done + [words[at]] + [words[at + 1]] == done + words[at..at + 2];
        }
        assert words[at..at + 1] == [words[at]];
        done := done + words[at..idx];
      } else {
        MovedOther(words, options, at, done);
      }
      idx := idx + 1;
    }
    MovedEnd(words, options, done);
    ok := true;
  }

  /** The second loop is at word `at`, and `out` is what has been put out by then. */
  ghost predicate Added(words: seq<string>, options: string, at: nat, out: seq<string>) {
    && at <= |words|
    && Reordered(words, options) == out + Back(words[at..], options)
    && Good(words[at..], options)
  }

  lemma AddedStart(words: seq<string>, options: string)
    requires Good(words, options)
    ensures Added(words, options, 0, Front(words, options))
  {
    assert words[0..] == words;
  }

  lemma AddedEnd(words: seq<string>, options: string, out: seq<string>)
    requires Added(words, options, |words|, out)
    ensures Reordered(words, options) == out && |out| == |words|
  {
    assert words[|words|..] == [];
    NothingLeft(options);
    ReorderedIsPermutation(words, options);
  }

  lemma AddedOther(words: seq<string>, options: string, at: nat, out: seq<string>)
    requires Added(words, options, at, out) && at < |words| && !IsOption(words[at])
    ensures Added(words, options, at + 1, out + [words[at]])
    ensures |out| < |words|
  {
    ReorderedIsPermutation(words, options);
    hide Front, Back, Good, Reordered;
    var rest := words[at..];
    FrontBackStep(rest, options);
    GoodIff(rest, options);
    assert rest[1..] == words[at + 1..];
    assert out + ([words[at]] + Back(rest[1..], options)) == out + [words[at]] + Back(rest[1..], options);
  }

  lemma AddedOption(words: seq<string>, options: string, at: nat, out: seq<string>)
    requires Added(words, options, at, out) && at < |words| && IsOption(words[at])
    ensures OptChar(words[at], options) != '?'
    ensures
      var next := if TakesArg(words[at], options) then at + 2 else at + 1;
      next <= |words| && Added(words, options, next, out)
  {
    hide Front, Back, Good, Reordered;
    var rest := words[at..];
    FrontBackStep(rest, options);
    GoodIff(rest, options);
    assert rest[Width(rest, options)..] == words[at + Width(rest, options)..];
  }

  /** reorder(), second loop: the other words. The '?' exit is not reached after MoveOptions succeeded. */
  method AddNonOptions(argc: nat, argv: array<Ptr>, options: string, tmp: array<Ptr>, start: nat)
    returns (failed: bool)
    requires IsArgv(argv[..], argc) && CString(options) && tmp != argv && tmp.Length == argc
    requires Good(Words(argv[..], argc), options)
    requires Holds(tmp[..], start, Front(Words(argv[..], argc), options))
    modifies tmp
    ensures !failed
    ensures Holds(tmp[..], argc, Reordered(Words(argv[..], argc), options))
  {
    ghost var words := Words(argv[..], argc);
    ghost var out := Front(words, options);
    assert start == 1 + |out|;
    hide Front, Back, Good, WithArgument, Holds, Added, Reordered;
    var idx, tmpidx := 1, start;
    AddedStart(words, options);
    while idx < argc && argv[idx] != Null
      invariant 1 <= idx <= argc && tmpidx == 1 + |out|
      invariant Holds(tmp[..], tmpidx, out)
      invariant Added(words, options, idx - 1, out)
      decreases argc - idx
    {
      ghost var at := idx - 1;
      if At(argv[idx].s, 0) == '-' {
        AddedOption(words, options, at, out);
        var c, takesArg := IsValidOpt(At(argv[idx].s, 1), options);
        if c == '?' {
          assert false;
          return true;
        }
        if takesArg {
          idx := idx + 1;
        }
      } else {
        AddedOther(words, options, at, out);
        tmpidx := Put(tmp, tmpidx, argv[idx], out, words[at]);
        out := out + [words[at]];
      }
      idx := idx + 1;
    }
    AddedEnd(words, options, out);
    failed := false;
  }

  /** reorder(): 0 and argv rearranged, or 1 and argv untouched. */
  method Reorder(argc: nat, argv: array<Ptr>, options: string) returns (r: int)
    requires IsArgv(argv[..], argc) && CString(options)
    modifies argv
    ensures IsArgv(argv[..], argc) && argv[0] == old(argv[0])
    ensures r == if Good(old(Words(argv[..], argc)), options) then 0 else 1
    ensures Words(argv[..], argc)
         == if r == 0 then Reordered(old(Words(argv[..], argc)), options) else old(Words(argv[..], argc))
  {
    var tmp := new Ptr[argc](_ => Null);
    ghost var words := Words(argv[..], argc);
    var ok, tmpidx := MoveOptions(argc, argv, options, tmp);
    if !ok {
      return 1;
    }
    var failed := AddNonOptions(argc, argv, options, tmp, tmpidx);
    ReorderedIsPermutation(words, options);
    hide Reordered, Good;
    ghost var sorted := Reordered(words, options);
    HoldsAll(tmp[..], sorted);
    for idx := 1 to argc
      invariant argv[0] == old(argv[0]) && argv[argc] == Null
      invariant forall k | 1 <= k < argc :: tmp[k] == Str(sorted[k - 1])
      invariant forall k | 1 <= k < idx :: argv[k] == tmp[k]
    {
      argv[idx] := tmp[idx];
    }
    assert Words(argv[..], argc) == sorted;
    r := 0;
  }

  lemma HoldsAll(t: seq<Ptr>, words: seq<string>)
    requires Holds(t, |t|, words)
    ensures forall k | 1 <= k < |t| :: t[k] == Str(words[k - 1])
  {
    forall k | 1 <= k < |t|
      ensures t[k] == Str(words[k - 1])
    {
      assert t[1..|t|][k - 1] == t[k];
    }
  }

  // ---------- one option per call ----------

  /** What a call returns: the option character, '?' or -1; and the new *myoptind and *myoptarg. */
  datatype Parsed = Parsed(ret: int, optind: nat, optarg: Ptr)

  /** px4_getopt without the rearranging: the word at `ind` (counting the program name as word 0). */
  function ParseOne(words: seq<string>, options: string, ind: nat, arg: Ptr): Parsed
    requires 1 <= ind <= |words| + 1
  {
    var arg1 := if arg != Null then arg else if ind <= |words| then Str(words[ind - 1]) else Null;
    if ind > |words| || !IsOption(words[ind - 1]) then Parsed(-1, ind, arg1)
    else
      var c := OptChar(words[ind - 1], options);
      if c == '?' then Parsed('?' as int, ind + 1, arg1)
      else if !TakesArg(words[ind - 1], options) then Parsed(c as int, ind + 1, arg1)
      else if ind == |words| then Parsed(-1, ind + 1, Null)
      else Parsed(c as int, ind + 2, Str(words[ind]))
  }

  method Px4Getopt(argc: nat, argv: array<Ptr>, options: string, myoptind: nat, myoptarg: Ptr)
    returns (ret: int, optind: nat, optarg: Ptr)
    requires IsArgv(argv[..], argc) && CString(options) && 1 <= myoptind <= argc
    modifies argv
    ensures IsArgv(argv[..], argc) && argv[0] == old(argv[0])
    ensures
      var before, after := old(Words(argv[..], argc)), Words(argv[..], argc);
      if myoptind == 1 && !Good(before, options)
      then after == before && Parsed(ret, optind, optarg) == Parsed('?' as int, 2, myoptarg)
      else
        && after == (if myoptind == 1 then Reordered(before, options) else before)
        && Parsed(ret, optind, optarg) == ParseOne(after, options, myoptind, myoptarg)
  {
    optind, optarg := myoptind, myoptarg;
    if myoptind == 1 {
      var failed := Reorder(argc, argv, options);
      if failed != 0 {
        return '?' as int, optind + 1, optarg;
      }
    }
    hide Good, Reordered, ParseOne;
    ret, optind, optarg := ParseWord(argc, argv, options, optind, optarg);
  }

  /** What px4_getopt does once argv is in order. */
  method ParseWord(argc: nat, argv: array<Ptr>, options: string, myoptind: nat, myoptarg: Ptr)
    returns (ret: int, optind: nat, optarg: Ptr)
    requires IsArgv(argv[..], argc) && CString(options) && 1 <= myoptind <= argc
    ensures Parsed(ret, optind, optarg) == ParseOne(Words(argv[..], argc), options, myoptind, myoptarg)
  {
    hide WithArgument;
    optind, optarg := myoptind, myoptarg;
    var p := argv[optind];
    if optarg == Null {
      optarg := argv[optind];
    }
    if p != Null && At(p.s, 0) == '-' {
      var c, takesArg := IsValidOpt(At(p.s, 1), options);
      optind := optind + 1;
      if c == '?' {
        return c as int, optind, optarg;
      }
      if takesArg {
        optarg := argv[optind];
        if optarg == Null {
          return -1, optind, optarg;
        }
        optind := optind + 1;
      }
      return c as int, optind, optarg;
    }
    ret := -1;
  }

  /** Options and their arguments come first. */
  ghost predicate OptionsFirst(words: seq<string>, options: string) {
    words == Reordered(words, options)
  }

  lemma {:induction false} FrontStartsWithOption(words: seq<string>, options: string)
    ensures Front(words, options) != [] ==> IsOption(Front(words, options)[0])
    decreases |words|
  {
    if words != [] {
      FrontBackStep(words, options);
      if !IsOption(words[0]) {
        FrontStartsWithOption(words[1..], options);
      }
    }
  }

  /** In order and with nothing in front: there are no options left. */
  lemma NothingInFront(rest: seq<string>, options: string)
    requires OptionsFirst(rest, options) && Front(rest, options) == []
    ensures NoOptions(rest) && Tokenize(rest, options) == Tokens([])
  {
    BackHasNoOptions(rest, options);
    hide Front, Back;
    assert rest == Back(rest, options);
    NoOptionsTokenize(rest, options);
  }

  lemma FrontIsHead(rest: seq<string>, options: string)
    requires OptionsFirst(rest, options) && Front(rest, options) != []
    ensures rest != [] && IsOption(rest[0])
  {
    FrontStartsWithOption(rest, options);
    hide Front, Back;
    assert rest[0] == Front(rest, options)[0];
  }

  lemma Regroup(rest: seq<string>, head: seq<string>, front: seq<string>, back: seq<string>)
    requires rest == head + front + back
    ensures rest[|head|..] == front + back
  {
  }

  /** What is left after the first option and its argument is in order too. */
  lemma OptionsFirstStep(rest: seq<string>, options: string)
    requires rest != [] && IsOption(rest[0]) && OptionsFirst(rest, options)
    ensures OptionsFirst(rest[Width(rest, options)..], options)
  {
    var n := Width(rest, options);
    FrontBackStep(rest, options);
    hide Front, Back, Width;
    Regroup(rest, rest[..n], Front(rest[n..], options), Back(rest[n..], options));
  }

  /** On rearranged words, one call takes exactly the next token, and none are left when it returns -1. */
  lemma ParseOneTakesNextToken(words: seq<string>, options: string, ind: nat, arg: Ptr)
    requires 1 <= ind <= |words| + 1
    requires
      var rest := words[ind - 1..];
      Good(rest, options) && OptionsFirst(rest, options)
    ensures
      var rest, p := words[ind - 1..], ParseOne(words, options, ind, arg);
      var list := Tokenize(rest, options).list;
      if list == [] then p.ret == -1 && p.optind == ind && Front(rest, options) == [] && NoOptions(rest)
      else
        && ind < p.optind <= |words| + 1
        && p.ret == list[0].opt as int && p.ret != '?' as int
        && (list[0].arg != Null ==> p.optarg == list[0].arg)
        && TakesArg(rest[0], options) == (list[0].arg != Null)
        && Front(rest, options) == words[ind - 1..p.optind - 1] + Front(words[p.optind - 1..], options)
        && Good(words[p.optind - 1..], options) && OptionsFirst(words[p.optind - 1..], options)
        && Tokenize(words[p.optind - 1..], options) == Tokens(list[1..])
  {
    var rest := words[ind - 1..];
    if Front(rest, options) == [] {
      NothingInFront(rest, options);
    } else {
      FrontIsHead(rest, options);
      var n := Width(rest, options);
      FrontBackStep(rest, options);
      GoodStep(rest, options);
      GoodIff(rest, options);
      OptionsFirstStep(rest, options);
      hide Front, Tokenize, OptionsFirst, OptChar, TakesArg;
      SliceOfSlice(words, ind - 1, n);
    }
  }

  // ---------- all calls together ----------

  /** After rearranging, calls up to word `ind` have returned the tokens `seen`. */
  ghost predicate InProgress(before: seq<string>, options: string, ind: nat, seen: seq<Token>) {
    var words := Reordered(before, options);
    && 1 <= ind <= |words| + 1
    && Good(words[ind - 1..], options) && OptionsFirst(words[ind - 1..], options)
    && Tokenize(before, options) == Tokens(seen + Tokenize(words[ind - 1..], options).list)
    && |Front(before, options)| == ind - 1 + |Front(words[ind - 1..], options)|
  }

  lemma InProgressStart(before: seq<string>, options: string)
    requires Good(before, options)
    ensures InProgress(before, options, 1, [])
  {
    ReorderedReadsTheSame(before, options);
    var words := Reordered(before, options);
    assert words[0..] == words;
    assert [] + Tokenize(words, options).list == Tokenize(words, options).list;
  }

  /** The token a caller gets from one call: the argument only counts for options that take one. */
  function TokenOf(p: Parsed, options: string): Token
    requires 0 <= p.ret < 0xD800
  {
    Token(p.ret as char, if WithArgument(p.ret as char, options) then p.optarg else Null)
  }

  lemma FirstToken(rest: seq<string>, options: string)
    requires Good(rest, options) && Ascii(options) && OptionsFirst(rest, options)
    requires Tokenize(rest, options).list != []
    ensures
      var t := Tokenize(rest, options).list[0];
      && t.opt as int < 128
      && rest != [] && WithArgument(t.opt, options) == TakesArg(rest[0], options)
  {
    if Front(rest, options) == [] {
      NothingInFront(rest, options);
    } else {
      FrontIsHead(rest, options);
    }
  }

  lemma InProgressStep(before: seq<string>, options: string, ind: nat, seen: seq<Token>, arg: Ptr)
    requires InProgress(before, options, ind, seen) && Ascii(options)
    ensures
      var words := Reordered(before, options);
      var p := ParseOne(words, options, ind, arg);
      if p.ret == -1 then
        && Tokenize(before, options) == Tokens(seen)
        && p.optind == ind == 1 + |Front(before, options)|
        && NoOptions(words[ind - 1..])
      else
        && p.ret != '?' as int && 0 <= p.ret < 0xD800 && ind < p.optind
        && InProgress(before, options, p.optind, seen + [TokenOf(p, options)])
  {
    hide Good, OptionsFirst, Tokenize, Front, Back, Reordered, ParseOne, WithArgument, Ascii;
    var words := Reordered(before, options);
    var rest, p := words[ind - 1..], ParseOne(words, options, ind, arg);
    GoodIsTokens(rest, options);
    var list := Tokenize(rest, options).list;
    ParseOneTakesNextToken(words, options, ind, arg);
    if list == [] {
      assert seen + [] == seen;
    } else {
      FirstToken(rest, options);
      assert list[0] == TokenOf(p, options);
      assert seen + list == (seen + [list[0]]) + list[1..];
    }
  }

  lemma GoodIsTokens(words: seq<string>, options: string)
    ensures Good(words, options) <==> Tokenize(words, options).Tokens?
  {
  }

  /** Option letters are plain characters, as the int that px4_getopt returns. */
  ghost predicate Ascii(options: string) {
    forall k | 0 <= k < |options| :: options[k] as int < 128
  }

  /**
   The loop every caller writes: call px4_getopt from *myoptind == 1 until it returns -1. It sees
   exactly the tokenizer's options and arguments, in order, and is left at the first word that is
   no option; or it sees '?' on the first call, exactly if the tokenizer fails.
   */
  method ParseAll(argc: nat, argv: array<Ptr>, options: string)
    returns (tokens: Tokens, optind: nat)
    requires IsArgv(argv[..], argc) && CString(options) && Ascii(options)
    modifies argv
    ensures IsArgv(argv[..], argc)
    ensures tokens == Tokenize(old(Words(argv[..], argc)), options)
    ensures
      var before, after := old(Words(argv[..], argc)), Words(argv[..], argc);
      if tokens == BadOption then after == before && optind == 2
      else
        && after == Reordered(before, options)
        && optind == 1 + |Front(before, options)| <= argc
        && NoOptions(after[optind - 1..])
  {
    ghost var before := Words(argv[..], argc);
    var seen: seq<Token> := [];
    var ret, optarg := 0, Null;
    optind := 1;
    if Good(before, options) {
      InProgressStart(before, options);
      ReorderedIsPermutation(before, options);
    }
    while true
      invariant IsArgv(argv[..], argc) && 1 <= optind <= argc
      invariant Good(before, options) ==> InProgress(before, options, optind, seen)
      invariant if optind == 1 then Words(argv[..], argc) == before
                else Good(before, options) && Words(argv[..], argc) == Reordered(before, options)
      decreases argc - optind
    {
      ghost var ind, arg := optind, optarg;
      ret, optind, optarg := Px4Getopt(argc, argv, options, optind, optarg);
      if Good(before, options) {
        InProgressStep(before, options, ind, seen, arg);
      }
      if ret == -1 {
        return Tokens(seen), optind;
      }
      if ret == '?' as int {
        return BadOption, optind;
      }
      seen := seen + [TokenOf(Parsed(ret, optind, optarg), options)];
    }
  }
}
