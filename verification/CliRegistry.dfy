/** cli_registry.cpp: a command line is cut into arguments in place and handed to the action it names. */
module CliRegistry {
  import opened Util
  import opened CliTokens

  // ---------- setargs ----------

  /** What is left of the line from `pos` on is still the text, and a NUL ends it. */
  ghost predicate Unread(b: seq<char>, s: string, pos: nat) {
    && pos <= |s| < |b| && '\0' !in s && b[|s|] == '\0'
    && forall k :: pos <= k < |s| ==> b[k] == s[k]
  }

  method SkipBlanks(args: array<char>, pos: nat, ghost s: string) returns (j: nat)
    requires Unread(args[..], s, pos)
    modifies args
    ensures j == SkipSpaces(s, pos) && Unread(args[..], s, j)
    ensures forall k :: 0 <= k < args.Length ==> args[k] == if pos <= k < j then '\0' else old(args[k])
  {
    j := pos;
    while IsSpace(args[j])
      invariant pos <= j <= |s| < args.Length
      invariant Unread(args[..], s, j) && SkipSpaces(s, pos) == SkipSpaces(s, j)
      invariant forall k :: 0 <= k < args.Length ==> args[k] == if pos <= k < j then '\0' else old(args[k])
      decreases |s| - j
    {
      args[j] := '\0';
      j := j + 1;
    }
  }

  method SkipQuoted(args: array<char>, from: nat, ghost s: string) returns (e: nat)
    requires Unread(args[..], s, from)
    ensures e == CloseQuote(s, from)
  {
    e := from;
    while args[e] != '\0' && args[e] != '"'
      invariant from <= e <= |s| && CloseQuote(s, from) == CloseQuote(s, e)
      decreases |s| - e
    {
      e := e + 1;
    }
  }

  method ScanToken(args: array<char>, pos: nat, ghost s: string) returns (e: nat, closed: bool)
    requires Unread(args[..], s, pos)
    ensures TokenEnd(s, pos) == if closed then Some(e) else None
  {
    e := pos;
    while args[e] != '\0' && !IsSpace(args[e])
      invariant pos <= e <= |s| && TokenEnd(s, pos) == TokenEnd(s, e)
      decreases |s| - e
    {
      if args[e] == '"' {
        e := SkipQuoted(args, e + 1, s);
        if args[e] == '\0' {
          return e, false;
        }
      }
      e := e + 1;
    }
    return e, true;
  }

  ghost function Prepend(tokens: seq<Span>, r: Scan): Scan {
    r.(tokens := tokens + r.tokens)
  }

  /** Reading one more token moves it from what is left to what is done. */
  lemma {:induction false} ScanStep(s: string, pos: nat, max: nat, done: seq<Span>)
    requires pos < |s| && SkipSpaces(s, pos) == pos && max > 0
    ensures TokenEnd(s, pos) == None ==> Prepend(done, ScanFrom(s, pos, max)) == Scan(done, pos, false)
    ensures var e := TokenEnd(s, pos);
            e.Some? ==> var next := SkipSpaces(s, e.value);
                        && SkipSpaces(s, next) == next
                        && Prepend(done, ScanFrom(s, pos, max)) == Prepend(done + [Span(pos, e.value)], ScanFrom(s, next, max - 1))
  {
    if TokenEnd(s, pos).Some? {
      var e := TokenEnd(s, pos).value;
      SkipTwice(s, e);
      var rest := ScanFrom(s, e, max - 1);
      assert done + ([Span(pos, e)] + rest.tokens) == done + [Span(pos, e)] + rest.tokens;
    } else {
      assert done + [] == done;
    }
  }

  lemma {:induction false} SkipTwice(s: string, i: nat)
    requires i <= |s|
    ensures SkipSpaces(s, SkipSpaces(s, i)) == SkipSpaces(s, i)
    ensures forall max: nat :: ScanFrom(s, SkipSpaces(s, i), max) == ScanFrom(s, i, max)
  {
  }

  /** Blanked so far, seen from one token to the next. */
  lemma {:induction false} TokenBlanked(b: seq<char>, b': seq<char>, was: seq<char>, done: seq<Span>, pos: nat, e: nat, next: nat)
    requires |b| == |b'| == |was| && pos < e <= next <= |b|
    requires Blanked(b, was, done, pos) && forall t <- done :: t.from <= t.to <= pos
    requires forall k :: 0 <= k < |b| ==> b'[k] == if e <= k < next then '\0' else b[k]
    ensures Blanked(b', was, done + [Span(pos, e)], next)
  {
    var done' := done + [Span(pos, e)];
    forall k | 0 <= k < |b| ensures b'[k] == if k < next && !InToken(done', k) then '\0' else was[k] {
      assert forall t :: 0 <= t < |done| ==> done'[t] == done[t];
      assert done'[|done|] == Span(pos, e);
      if InToken(done', k) {
        var t :| 0 <= t < |done'| && done'[t].from <= k < done'[t].to;
        assert t < |done| ==> done[t] in done && InToken(done, k);
      } else {
        assert !InToken(done, k) && !(pos <= k < e);
      }
      if InToken(done, k) {
        var t :| 0 <= t < |done| && done[t].from <= k < done[t].to;
        assert done[t] in done && done'[t].from <= k < done'[t].to;
      }
    }
  }

  lemma {:induction false} TextAt(b: seq<char>, s: string, from: nat, to: nat)
    requires from <= to <= |s| && to < |b| && b[to] == '\0' && '\0' !in s
    requires forall i :: from <= i < to ==> b[i] == s[i]
    ensures CString(b[from..]) == s[from..to]
  {
    var c := b[from..];
    assert c[..to - from] == s[from..to] && c[to - from] == b[to];
    CStringUnique(c, to - from);
  }

  /** Each token is a C string of its own: its text is intact and a NUL follows it. */
  lemma {:induction false} ArgumentText(b: seq<char>, was: seq<char>, s: string, max: nat, k: nat)
    requires Unread(was, s, 0) && |b| == |was|
    requires var r := ScanFrom(s, 0, max); k < |r.tokens| && Blanked(b, was, r.tokens, r.stop)
    ensures var t := ScanFrom(s, 0, max).tokens[k];
            t.from <= t.to <= |s| && CString(b[t.from..]) == s[t.from..t.to]
  {
    ScanShape(s, 0, max);
    hide ScanFrom, CString;
    var r := ScanFrom(s, 0, max);
    var from, to := r.tokens[k].from, r.tokens[k].to;
    forall i | from <= i < to ensures b[i] == s[i] {
      assert InToken(r.tokens, i);
    }
    forall u | 0 <= u < |r.tokens| ensures !(r.tokens[u].from <= to < r.tokens[u].to) {
      if u < k { } else if k < u { }
    }
    TextAt(b, s, from, to);
  }

  /** Half-way through a line: `done` are the tokens found, `pos` is where the next one starts. */
  ghost predicate Cutting(b: seq<char>, argv: seq<nat>, was: seq<char>, s: string, done: seq<Span>, pos: nat, max: nat)
  {
    && |b| == |was| && |done| <= max <= |argv|
    && Unread(b, s, pos) && SkipSpaces(s, pos) == pos
    && ScanFrom(s, 0, max) == Prepend(done, ScanFrom(s, pos, max - |done|))
    && Blanked(b, was, done, pos)
    && (forall t <- done :: t.from <= t.to <= pos)
    && Starts(argv, done)
  }

  /** The line is cut: each token begins where its argument points, and all else that was read is NUL. */
  ghost predicate CutUp(b: seq<char>, argv: seq<nat>, was: seq<char>, r: Scan) {
    && |b| == |was| && Blanked(b, was, r.tokens, r.stop) && |r.tokens| <= |argv|
    && forall k :: 0 <= k < |r.tokens| ==> argv[k] == r.tokens[k].from < |b|
  }

  lemma {:induction false} CutUpIs(b: seq<char>, argv: seq<nat>, was: seq<char>, s: string, done: seq<Span>, pos: nat, closed: bool)
    requires |b| == |was| && pos <= |s| < |b| && Starts(argv, done) && Blanked(b, was, done, pos)
    requires forall t <- done :: t.from <= t.to <= pos
    ensures CutUp(b, argv, was, Scan(done, pos, closed))
  {
    hide Blanked;
  }

  ghost predicate Starts(argv: seq<nat>, done: seq<Span>) {
    |done| <= |argv| && forall k :: 0 <= k < |done| ==> argv[k] == done[k].from
  }

  lemma {:induction false} StartsStep(argv: seq<nat>, argv': seq<nat>, done: seq<Span>, t: Span)
    requires Starts(argv, done) && |done| < |argv| == |argv'|
    requires forall k :: 0 <= k < |argv| ==> argv'[k] == if k == |done| then t.from else argv[k]
    ensures Starts(argv', done + [t])
  {
  }

  /** One more token from `pos` to `e`, and the blanks up to `next` behind it. */
  lemma {:induction false} CuttingStep(b: seq<char>, argv: seq<nat>, b': seq<char>, argv': seq<nat>, was: seq<char>, s: string,
                    done: seq<Span>, pos: nat, e: nat, next: nat, max: nat)
    requires Cutting(b, argv, was, s, done, pos, max) && |done| < max && pos < |s| && !IsSpace(s[pos])
    requires TokenEnd(s, pos) == Some(e) && next == SkipSpaces(s, e)
    requires |b'| == |b| && Unread(b', s, next) && |argv'| == |argv|
    requires forall k :: 0 <= k < |b| ==> b'[k] == if e <= k < next then '\0' else b[k]
    requires forall k :: 0 <= k < |argv| ==> argv'[k] == if k == |done| then pos else argv[k]
    ensures pos < next && Cutting(b', argv', was, s, done + [Span(pos, e)], next, max)
  {
    hide ScanFrom, Prepend, Blanked, TokenEnd, Starts, SkipSpaces, IsSpace, InToken;
    ScanStep(s, pos, max - |done|, done);
    TokenBlanked(b, b', was, done, pos, e, next);
    StartsStep(argv, argv', done, Span(pos, e));
    assert forall t <- done + [Span(pos, e)] :: t in done || t == Span(pos, e);
  }

  method EndToken(args: array<char>, e: nat, ghost s: string) returns (next: nat)
    requires Unread(args[..], s, e) && (e < |s| ==> IsSpace(s[e]))
    modifies args
    ensures next == SkipSpaces(s, e) && Unread(args[..], s, next)
    ensures forall k :: 0 <= k < args.Length ==> args[k] == if e <= k < next then '\0' else old(args[k])
  {
    next := e;
    if args[next] != '\0' {
      args[next] := '\0';
      next := next + 1;
    }
    next := SkipBlanks(args, next, s);
  }

  lemma {:induction false} CuttingReads(b: seq<char>, argv: seq<nat>, was: seq<char>, s: string, done: seq<Span>, pos: nat, max: nat)
    requires Cutting(b, argv, was, s, done, pos, max)
    ensures pos <= |s| < |b| && |done| <= max <= |argv| && Unread(b, s, pos)
    ensures pos < |s| ==> !IsSpace(s[pos])
    ensures b[pos] != '\0' <==> pos < |s|
  {
    hide ScanFrom, Prepend, Blanked, Starts;
  }

  method CutToken(args: array<char>, argv: array<nat>, count: nat, pos: nat, maxArgs: nat,
                  ghost was: seq<char>, ghost s: string, ghost done: seq<Span>)
    returns (next: nat, closed: bool, ghost e: nat)
    requires Cutting(args[..], argv[..], was, s, done, pos, maxArgs) && count == |done| < maxArgs && pos < |s|
    modifies args, argv
    ensures closed ==> pos < next <= |s| && Cutting(args[..], argv[..], was, s, done + [Span(pos, e)], next, maxArgs)
    ensures !closed ==> ScanFrom(s, 0, maxArgs) == Scan(done, pos, false)
    ensures !closed ==> CutUp(args[..], argv[..], was, ScanFrom(s, 0, maxArgs))
  {
    ghost var line, starts := args[..], argv[..];
    hide *;
    CuttingReads(line, starts, was, s, done, pos, maxArgs);
    argv[count] := pos;
    next, closed := ScanToken(args, pos, s);
    e := next;
    if closed {
      next := EndToken(args, next, s);
      CuttingStep(line, starts, args[..], argv[..], was, s, done, pos, e, next, maxArgs);
    } else {
      CuttingStops(args[..], starts, argv[..], was, s, done, pos, maxArgs);
    }
  }

  method SetArgs(args: array<char>, argv: array<nat>, maxArgs: nat) returns (count: int)
    requires '\0' in args[..] && maxArgs <= argv.Length
    modifies args, argv
    ensures var r := ScanFrom(old(CString(args[..])), 0, maxArgs);
            && count == (if r.closed then |r.tokens| else -1)
            && CutUp(args[..], argv[..], old(args[..]), r)
  {
    ghost var s, was := CString(args[..]), args[..];
    CStringIs(args[..]);
    WholeUnread(args[..], s);
    hide *;
    count := 0;
    var pos := SkipBlanks(args, 0, s);
    ghost var done: seq<Span> := [];
    CuttingStarts(args[..], argv[..], was, s, pos, maxArgs);
    CuttingReads(args[..], argv[..], was, s, done, pos, maxArgs);
    while args[pos] != '\0' && count < maxArgs
      invariant 0 <= count == |done| <= maxArgs && pos <= |s| < args.Length
      invariant Cutting(args[..], argv[..], was, s, done, pos, maxArgs)
      invariant args[pos] != '\0' <==> pos < |s|
      decreases |s| - pos
    {
      ghost var e;
      ghost var from := pos;
      var closed;
      pos, closed, e := CutToken(args, argv, count, pos, maxArgs, was, s, done);
      if !closed {
        return -1;
      }
      done := done + [Span(from, e)];
      count := count + 1;
      CuttingReads(args[..], argv[..], was, s, done, pos, maxArgs);
    }
    CuttingEnds(args[..], argv[..], was, s, done, pos, maxArgs);
  }

  lemma {:induction false} WholeUnread(b: seq<char>, s: string)
    requires |s| < |b| && b[..|s|] == s && b[|s|] == '\0' && '\0' !in s
    ensures Unread(b, s, 0)
  {
    assert forall k :: 0 <= k < |s| ==> b[k] == b[..|s|][k];
  }

  lemma {:induction false} NothingCut(b: seq<char>, was: seq<char>, pos: nat)
    requires |b| == |was| && forall k :: 0 <= k < |b| ==> b[k] == if 0 <= k < pos then '\0' else was[k]
    ensures Blanked(b, was, [], pos)
  {
  }

  lemma {:induction false} CuttingStarts(b: seq<char>, argv: seq<nat>, was: seq<char>, s: string, pos: nat, max: nat)
    requires Unread(b, s, pos) && |b| == |was| && max <= |argv| && pos == SkipSpaces(s, 0)
    requires forall k :: 0 <= k < |b| ==> b[k] == if 0 <= k < pos then '\0' else was[k]
    ensures Cutting(b, argv, was, s, [], pos, max)
  {
    SkipTwice(s, 0);
    NothingCut(b, was, pos);
    hide ScanFrom, SkipSpaces, Unread, Blanked;
    assert [] + ScanFrom(s, pos, max).tokens == ScanFrom(s, pos, max).tokens;
  }

  lemma {:induction false} CuttingStops(b: seq<char>, argv: seq<nat>, argv': seq<nat>, was: seq<char>, s: string,
                                        done: seq<Span>, pos: nat, max: nat)
    requires Cutting(b, argv, was, s, done, pos, max) && |done| < max && pos < |s| && TokenEnd(s, pos) == None
    requires |argv'| == |argv| && forall k :: 0 <= k < |done| ==> argv'[k] == argv[k]
    ensures ScanFrom(s, 0, max) == Scan(done, pos, false) && CutUp(b, argv', was, ScanFrom(s, 0, max))
  {
    ScanStep(s, pos, max - |done|, done);
    hide ScanFrom, Prepend, Blanked, SkipSpaces, CutUp;
    CutUpIs(b, argv', was, s, done, pos, false);
  }

  lemma {:induction false} CuttingEnds(b: seq<char>, argv: seq<nat>, was: seq<char>, s: string, done: seq<Span>, pos: nat, max: nat)
    requires Cutting(b, argv, was, s, done, pos, max) && (b[pos] == '\0' || |done| == max)
    ensures ScanFrom(s, 0, max) == Scan(done, pos, true) && CutUp(b, argv, was, ScanFrom(s, 0, max))
  {
    ScanUnfold(s, pos, max - |done|);
    hide ScanFrom, Blanked, SkipSpaces, TokenEnd, CutUp;
    assert pos == |s| || |done| == max;
    assert done + [] == done;
    CutUpIs(b, argv, was, s, done, pos, true);
  }

  // ---------- actions ----------

  datatype ActionType =
    NO_PARAMETER | NO_PARAMETER_P | ONE_PARAMETER | ONE_PARAMETER_P |
    FLOAT_PARAMETER_NAN_ALLOWED | FLOAT_PARAMETER | FLOAT_PARAMETER_P |
    STRING_PARAMETER | STRING_PARAMETER_P | STRING2_PARAMETER | STRING2_PARAMETER_P |
    STRING3_PARAMETER | STRING5_PARAMETER | TWO_INTS_PARAMETER | TWO_INTS_PARAMETER_P |
    FLOAT_FLOAT_PARAMETER | FLOAT_FLOAT_FLOAT_PARAMETER | FLOAT_FLOAT_FLOAT_FLOAT_PARAMETER |
    FLOAT_FLOAT_PARAMETER_P | INT_FLOAT_PARAMETER

  datatype TokenCallback = TokenCallback(token: string, parameterType: ActionType)

  function GetParameterCount(t: ActionType): int {
    match t
    case NO_PARAMETER | NO_PARAMETER_P => 0
    case ONE_PARAMETER | ONE_PARAMETER_P | FLOAT_PARAMETER | STRING_PARAMETER => 1
    case FLOAT_FLOAT_PARAMETER | FLOAT_FLOAT_PARAMETER_P | STRING2_PARAMETER | STRING2_PARAMETER_P |
         TWO_INTS_PARAMETER | TWO_INTS_PARAMETER_P | INT_FLOAT_PARAMETER => 2
    case STRING3_PARAMETER | FLOAT_FLOAT_FLOAT_PARAMETER => 3
    case FLOAT_FLOAT_FLOAT_FLOAT_PARAMETER => 4
    case STRING5_PARAMETER => 5
    case _ => -1
  }

  /** The library's atoi and atoff; no float stands for NaN. */
  datatype Parsers = Parsers(atoi: string -> int, atoff: string -> Option<real>)

  const ATOI_ERROR_CODE := 311223344

  datatype Argument = TextArgument(text: string) | IntArgument(n: int) | FloatArgument(x: Option<real>) | CallbackParam

  datatype Outcome = Rejected | Called(action: nat, arguments: seq<Argument>)

  /** What one argument is turned into, by the letter that stands for its kind. */
  datatype Kind = TextKind | IntKind | FloatKind | AnyFloatKind

  predicate Converts(p: Parsers, kind: Kind, text: string) {
    match kind
    case TextKind => true
    case AnyFloatKind => true
    case IntKind => p.atoi(text) != ATOI_ERROR_CODE && p.atoi(text) != -ATOI_ERROR_CODE
    case FloatKind => p.atoff(text).Some?
  }

  function Converted(p: Parsers, kind: Kind, text: string): Argument {
    match kind
    case TextKind => TextArgument(text)
    case IntKind => IntArgument(p.atoi(text))
    case FloatKind | AnyFloatKind => FloatArgument(p.atoff(text))
  }

  /** The callback of an action type: the kinds of its arguments, and whether it also gets its param.
      Three types have no handler of their own. */
  function Signature(t: ActionType): Option<(seq<Kind>, bool)> {
    match t
    case NO_PARAMETER => Some(([], false))
    case NO_PARAMETER_P => Some(([], true))
    case ONE_PARAMETER => Some(([IntKind], false))
    case ONE_PARAMETER_P => Some(([IntKind], true))
    case FLOAT_PARAMETER_NAN_ALLOWED => Some(([AnyFloatKind], false))
    case FLOAT_PARAMETER => Some(([FloatKind], false))
    case STRING_PARAMETER => Some(([TextKind], false))
    case STRING_PARAMETER_P => Some(([TextKind], true))
    case STRING2_PARAMETER => Some(([TextKind, TextKind], false))
    case STRING2_PARAMETER_P => Some(([TextKind, TextKind], true))
    case STRING3_PARAMETER => Some(([TextKind, TextKind, TextKind], false))
    case STRING5_PARAMETER => Some(([TextKind, TextKind, TextKind, TextKind, TextKind], false))
    case TWO_INTS_PARAMETER => Some(([IntKind, IntKind], false))
    case FLOAT_FLOAT_PARAMETER => Some(([FloatKind, FloatKind], false))
    case FLOAT_FLOAT_PARAMETER_P => Some(([FloatKind, FloatKind], true))
    case FLOAT_FLOAT_FLOAT_PARAMETER => Some(([FloatKind, FloatKind, FloatKind], false))
    case FLOAT_FLOAT_FLOAT_FLOAT_PARAMETER => Some(([FloatKind, FloatKind, FloatKind, FloatKind], false))
    case INT_FLOAT_PARAMETER => Some(([IntKind, FloatKind], false))
    case FLOAT_PARAMETER_P | TWO_INTS_PARAMETER_P => None
  }

  /** The arguments the callback of a type gets for these words, if every word can be converted. */
  function ArgumentsFor(t: ActionType, words: seq<string>, p: Parsers): (r: Option<seq<Argument>>)
    requires Signature(t).Some? ==> |Signature(t).value.0| <= |words|
  {
    match Signature(t)
    case None => None
    case Some((kinds, param)) =>
      if forall k :: 0 <= k < |kinds| ==> Converts(p, kinds[k], words[k]) then
        Some(seq(|kinds|, k requires 0 <= k < |kinds| => Converted(p, kinds[k], words[k])) +
             if param then [CallbackParam] else [])
      else None
  }

  method ReadInts(argv: seq<string>, n: nat, p: Parsers) returns (values: Option<seq<int>>)
    requires n <= |argv|
    ensures values.Some? <==> forall k :: 0 <= k < n ==> Converts(p, IntKind, argv[k])
    ensures values.Some? ==> |values.value| == n && forall k :: 0 <= k < n ==> values.value[k] == p.atoi(argv[k])
  {
    var value := [];
    for i := 0 to n
      invariant |value| == i
      invariant forall k :: 0 <= k < i ==> Converts(p, IntKind, argv[k]) && value[k] == p.atoi(argv[k])
    {
      var v := p.atoi(argv[i]);
      if v == ATOI_ERROR_CODE || -v == ATOI_ERROR_CODE {
        assert !Converts(p, IntKind, argv[i]);
        return None;
      }
      value := value + [v];
    }
    return Some(value);
  }

  method ReadFloats(argv: seq<string>, n: nat, p: Parsers) returns (values: Option<seq<Argument>>)
    requires n <= |argv|
    ensures values.Some? <==> forall k :: 0 <= k < n ==> Converts(p, FloatKind, argv[k])
    ensures values.Some? ==> |values.value| == n
    ensures values.Some? ==> forall k :: 0 <= k < n ==> values.value[k] == Converted(p, FloatKind, argv[k])
  {
    var value := [];
    for i := 0 to n
      invariant |value| == i
      invariant forall k :: 0 <= k < i ==> Converts(p, FloatKind, argv[k]) && value[k] == Converted(p, FloatKind, argv[k])
    {
      var v := p.atoff(argv[i]);
      if v == None {
        assert !Converts(p, FloatKind, argv[i]);
        return None;
      }
      value := value + [FloatArgument(v)];
    }
    return Some(value);
  }

  lemma {:induction false} IsCalled(t: ActionType, words: seq<string>, p: Parsers, arguments: seq<Argument>)
    requires Signature(t).Some? && |Signature(t).value.0| <= |words|
    requires var (kinds, param) := Signature(t).value;
             && |arguments| == |kinds| + (if param then 1 else 0)
             && (forall k :: 0 <= k < |kinds| ==> Converts(p, kinds[k], words[k]) && arguments[k] == Converted(p, kinds[k], words[k]))
             && (param ==> arguments[|kinds|] == CallbackParam)
    ensures ArgumentsFor(t, words, p) == Some(arguments)
  {
    hide Signature, Converts, Converted;
    var kinds := Signature(t).value.0;
    assert arguments == seq(|kinds|, k requires 0 <= k < |kinds| => Converted(p, kinds[k], words[k])) +
                        if Signature(t).value.1 then [CallbackParam] else [];
  }

  lemma {:induction false} IsNotCalled(t: ActionType, words: seq<string>, p: Parsers)
    requires Signature(t).Some? && |Signature(t).value.0| <= |words|
    requires exists k :: 0 <= k < |Signature(t).value.0| && !Converts(p, Signature(t).value.0[k], words[k])
    ensures ArgumentsFor(t, words, p) == None
  {
  }

  method HandleFloats(argv: seq<string>, n: nat, takesParam: bool, p: Parsers, t: ActionType) returns (r: Option<seq<Argument>>)
    requires n <= |argv|
    requires Signature(t).Some? && |Signature(t).value.0| == n && Signature(t).value.1 == takesParam
    requires forall k :: 0 <= k < n ==> Signature(t).value.0[k] == FloatKind
    ensures r == ArgumentsFor(t, argv, p)
  {
    hide Signature, Converts, ArgumentsFor;
    var value := ReadFloats(argv, n, p);
    if value == None {
      IsNotCalled(t, argv, p);
      return None;
    }
    r := Some(value.value + if takesParam then [CallbackParam] else []);
    IsCalled(t, argv, p, r.value);
  }

  method HandleInts(argv: seq<string>, n: nat, takesParam: bool, p: Parsers, t: ActionType) returns (r: Option<seq<Argument>>)
    requires n <= |argv|
    requires Signature(t).Some? && |Signature(t).value.0| == n && Signature(t).value.1 == takesParam
    requires forall k :: 0 <= k < n ==> Signature(t).value.0[k] == IntKind
    ensures r == ArgumentsFor(t, argv, p)
  {
    hide Signature, Converts, ArgumentsFor;
    var value := ReadInts(argv, n, p);
    if value == None {
      IsNotCalled(t, argv, p);
      return None;
    }
    r := Some(seq(n, k requires 0 <= k < n => IntArgument(value.value[k])) + if takesParam then [CallbackParam] else []);
    IsCalled(t, argv, p, r.value);
  }

  method HandleTexts(argv: seq<string>, n: nat, takesParam: bool, p: Parsers, t: ActionType) returns (r: Option<seq<Argument>>)
    requires n <= |argv|
    requires Signature(t).Some? && |Signature(t).value.0| == n && Signature(t).value.1 == takesParam
    requires forall k :: 0 <= k < n ==> Signature(t).value.0[k] == TextKind
    ensures r == ArgumentsFor(t, argv, p)
  {
    hide Signature, ArgumentsFor;
    r := Some(seq(n, k requires 0 <= k < n => TextArgument(argv[k])) + if takesParam then [CallbackParam] else []);
    IsCalled(t, argv, p, r.value);
  }

  method HandleIntFloat(argv: seq<string>, p: Parsers) returns (r: Option<seq<Argument>>)
    requires 2 <= |argv|
    ensures r == ArgumentsFor(INT_FLOAT_PARAMETER, argv, p)
  {
    var kinds := Signature(INT_FLOAT_PARAMETER).value.0;
    assert kinds[0] == IntKind && kinds[1] == FloatKind;
    hide ArgumentsFor;
    var value1 := p.atoi(argv[0]);
    var value2 := p.atoff(argv[1]);
    if value1 == ATOI_ERROR_CODE || -value1 == ATOI_ERROR_CODE || value2 == None {
      assert !Converts(p, kinds[0], argv[0]) || !Converts(p, kinds[1], argv[1]);
      IsNotCalled(INT_FLOAT_PARAMETER, argv, p);
      return None;
    }
    r := Some([IntArgument(value1), FloatArgument(value2)]);
    IsCalled(INT_FLOAT_PARAMETER, argv, p, r.value);
  }

  /** What the callback is called with; nothing if it is not called. A handler may read only the
      arguments it was given. */
  method HandleActionWithParameter(t: ActionType, argv: seq<string>, p: Parsers) returns (r: Option<seq<Argument>>)
    requires Signature(t).Some? ==> |Signature(t).value.0| <= |argv|
    ensures r == ArgumentsFor(t, argv, p)
  {
    hide ArgumentsFor;
    match t {
      case NO_PARAMETER | NO_PARAMETER_P => r := HandleTexts(argv, 0, t == NO_PARAMETER_P, p, t);
      case STRING_PARAMETER | STRING_PARAMETER_P => r := HandleTexts(argv, 1, t == STRING_PARAMETER_P, p, t);
      case STRING2_PARAMETER | STRING2_PARAMETER_P => r := HandleTexts(argv, 2, t == STRING2_PARAMETER_P, p, t);
      case STRING3_PARAMETER => r := HandleTexts(argv, 3, false, p, t);
      case STRING5_PARAMETER => r := HandleTexts(argv, 5, false, p, t);
      case TWO_INTS_PARAMETER => r := HandleInts(argv, 2, false, p, t);
      case FLOAT_PARAMETER_NAN_ALLOWED =>
        r := Some([FloatArgument(p.atoff(argv[0]))]);
        IsCalled(t, argv, p, r.value);
      case FLOAT_PARAMETER => r := HandleFloats(argv, 1, false, p, t);
      case FLOAT_FLOAT_PARAMETER | FLOAT_FLOAT_PARAMETER_P => r := HandleFloats(argv, 2, t == FLOAT_FLOAT_PARAMETER_P, p, t);
      case FLOAT_FLOAT_FLOAT_PARAMETER => r := HandleFloats(argv, 3, false, p, t);
      case FLOAT_FLOAT_FLOAT_FLOAT_PARAMETER => r := HandleFloats(argv, 4, false, p, t);
      case INT_FLOAT_PARAMETER => r := HandleIntFloat(argv, p);
      case ONE_PARAMETER | ONE_PARAMETER_P => r := HandleInts(argv, 1, t == ONE_PARAMETER_P, p, t);
      case FLOAT_PARAMETER_P | TWO_INTS_PARAMETER_P => r := NoHandler(argv, p, t);
    }
  }

  method NoHandler(argv: seq<string>, p: Parsers, t: ActionType) returns (r: Option<seq<Argument>>)
    requires Signature(t).None?
    ensures r == ArgumentsFor(t, argv, p)
  {
    return None;
  }

  // ---------- dispatch ----------

  /** The first action with this name, or the number of actions. */
  function FirstAction(actions: seq<TokenCallback>, name: string): (a: nat)
    ensures a <= |actions| && (a < |actions| ==> actions[a].token == name)
    ensures forall k :: 0 <= k < a ==> actions[k].token != name
  {
    if actions == [] || actions[0].token == name then 0 else FirstAction(actions[1..], name) + 1
  }

  /** What happens to a command, given as its words. */
  function Dispatched(words: seq<string>, actions: seq<TokenCallback>, p: Parsers): Outcome {
    if words == [] then Rejected else
      var a := FirstAction(actions, words[0]);
      if a == |actions| || |words| - 1 != GetParameterCount(actions[a].parameterType) then Rejected
      else
        HandlersReadTheirOwn(actions[a].parameterType);
        match ArgumentsFor(actions[a].parameterType, words[1..], p)
        case None => Rejected
        case Some(arguments) => Called(a, arguments)
  }

  /** Where the count is right, the handler reads just the arguments there are. */
  lemma {:induction false} HandlersReadTheirOwn(t: ActionType)
    ensures GetParameterCount(t) >= 0 && Signature(t).Some? ==> |Signature(t).value.0| == GetParameterCount(t)
  {
  }

  function Texts(s: string, tokens: seq<Span>): seq<string> {
    seq(|tokens|, k requires 0 <= k < |tokens| =>
      if tokens[k].from <= tokens[k].to <= |s| then s[tokens[k].from..tokens[k].to] else "")
  }

  const MAX_CMD_LINE_LENGTH := 100
  const MAX_ARGUMENTS := 10

  function CommandOutcome(line: string, actions: seq<TokenCallback>, p: Parsers): Outcome {
    var r := ScanFrom(line, 0, MAX_ARGUMENTS);
    if !r.closed then Rejected else Dispatched(Texts(line, r.tokens), actions, p)
  }

  method ReadWords(args: array<char>, argv: array<nat>, argc: nat, ghost was: seq<char>, ghost s: string, ghost max: nat)
    returns (words: seq<string>)
    requires args.Length == |was| && Unread(was, s, 0) && argc <= argv.Length
    requires CutUp(args[..], argv[..], was, ScanFrom(s, 0, max)) && argc == |ScanFrom(s, 0, max).tokens|
    ensures words == Texts(s, ScanFrom(s, 0, max).tokens)
  {
    ghost var texts := Texts(s, ScanFrom(s, 0, max).tokens);
    AllWords(args[..], argv[..], argc, was, s, max);
    words := CollectWords(args, argv, argc, texts);
  }

  method CollectWords(args: array<char>, argv: array<nat>, argc: nat, ghost texts: seq<string>) returns (words: seq<string>)
    requires argc <= argv.Length && |texts| == argc
    requires forall k :: 0 <= k < argc ==> argv[k] <= args.Length && CString(args[..][argv[k]..]) == texts[k]
    ensures words == texts
  {
    hide CString;
    words := [];
    for i := 0 to argc
      invariant |words| == i && forall k :: 0 <= k < i ==> words[k] == texts[k]
    {
      words := words + [CString(args[..][argv[i]..])];
    }
  }

  lemma {:induction false} AllWords(b: seq<char>, argv: seq<nat>, argc: nat, was: seq<char>, s: string, max: nat)
    requires Unread(was, s, 0) && |b| == |was| && argc <= |argv|
    requires CutUp(b, argv, was, ScanFrom(s, 0, max)) && argc == |ScanFrom(s, 0, max).tokens|
    ensures var texts := Texts(s, ScanFrom(s, 0, max).tokens);
            |texts| == argc && forall k :: 0 <= k < argc ==> argv[k] <= |b| && CString(b[argv[k]..]) == texts[k]
  {
    hide ScanFrom, CString, Blanked, Unread;
    forall k | 0 <= k < argc ensures argv[k] <= |b| && CString(b[argv[k]..]) == Texts(s, ScanFrom(s, 0, max).tokens)[k] {
      ArgumentText(b, was, s, max, k);
    }
  }

  /** handleConsoleLineInternal: the line is copied, cut to a hundred characters, and dispatched. */
  method HandleConsoleLineInternal(commandLine: string, actions: seq<TokenCallback>, p: Parsers) returns (o: Outcome)
    requires '\0' !in commandLine
    ensures o == CommandOutcome(commandLine[..Min(|commandLine|, 100)], actions, p)
  {
    var len := Min(|commandLine|, MAX_CMD_LINE_LENGTH);
    ghost var s := commandLine[..len];
    var handleBuffer := new char[MAX_CMD_LINE_LENGTH + 1](i => if 0 <= i < len && i < |commandLine| then commandLine[i] else '\0');
    var argv := new nat[MAX_ARGUMENTS];
    assert handleBuffer[..][len] == '\0' && handleBuffer[..][..len] == s;
    CStringUnique(handleBuffer[..], len);
    ghost var was := handleBuffer[..];
    var argc := SetArgs(handleBuffer, argv, MAX_ARGUMENTS);
    hide ScanFrom;
    if argc <= 0 {
      return Rejected;
    }
    var words := ReadWords(handleBuffer, argv, argc, was, s, MAX_ARGUMENTS);
    o := DispatchWords(words, actions, p);
  }

  method DispatchWords(words: seq<string>, actions: seq<TokenCallback>, p: Parsers) returns (o: Outcome)
    requires words != []
    ensures o == Dispatched(words, actions, p)
  {
    for i := 0 to |actions|
      invariant forall k :: 0 <= k < i ==> actions[k].token != words[0]
    {
      if words[0] == actions[i].token {
        assert FirstAction(actions, words[0]) == i;
        var current := actions[i];
        if |words| - 1 != GetParameterCount(current.parameterType) {
          return Rejected;
        }
        HandlersReadTheirOwn(current.parameterType);
        var r := HandleActionWithParameter(current.parameterType, words[1..], p);
        return if r == None then Rejected else Called(i, r.value);
      }
    }
    return Rejected;
  }

  /** A longer line is not even looked at. */
  method HandleConsoleLine(line: string, actions: seq<TokenCallback>, p: Parsers) returns (o: Outcome)
    requires '\0' !in line
    ensures o == if |line| <= 100 then CommandOutcome(line, actions, p) else Rejected
  {
    if |line| > MAX_CMD_LINE_LENGTH {
      return Rejected;
    }
    assert line[..|line|] == line;
    o := HandleConsoleLineInternal(line, actions, p);
  }

  // ---------- main results ----------

  function Spoken(words: seq<Word>): seq<string> {
    seq(|words|, k requires 0 <= k < |words| => Text(words[k].token))
  }

  /** A name and up to nine arguments, quoted and spaced in any way: the first action of that name is
      called with exactly these texts, if their number is right and each can be converted. */
  lemma {:induction false} CommandReaches(line: string, lead: string, words: seq<Word>, actions: seq<TokenCallback>, p: Parsers)
    requires WordsValid(words) && Blank(lead) && 1 <= |words| <= MAX_ARGUMENTS && line == lead + Line(words)
    ensures CommandOutcome(line, actions, p) == Dispatched(Spoken(words), actions, p)
  {
    assert line[0..] == line;
    LineRead(line, 0, lead, words, MAX_ARGUMENTS);
    hide ScanFrom, Dispatched;
    var r := ScanFrom(line, 0, MAX_ARGUMENTS);
    assert Texts(line, r.tokens) == Spoken(words);
  }

  predicate Uncallable(t: ActionType) {
    t in {FLOAT_PARAMETER_NAN_ALLOWED, FLOAT_PARAMETER_P, STRING_PARAMETER_P, TWO_INTS_PARAMETER_P}
  }

  /** Four of the action types are never called, by any line, whatever else is registered and whatever
      counts as a number: two have a handler but no parameter count, one has a count but no handler,
      and one has neither. */
  lemma {:induction false} NeverCalled(line: string, actions: seq<TokenCallback>, p: Parsers)
    ensures var o := CommandOutcome(line, actions, p);
            o.Called? ==> o.action < |actions| && !Uncallable(actions[o.action].parameterType)
  {
    hide ScanFrom;
  }

  /** What a callback gets for a word, by the kind of its argument; nothing if the word cannot be read. */
  predicate IsArgument(p: Parsers, kind: Kind, word: string, argument: Argument) {
    match kind
    case TextKind => argument == TextArgument(word)
    case IntKind => p.atoi(word) !in {311223344, -311223344} && argument == IntArgument(p.atoi(word))
    case FloatKind => p.atoff(word).Some? && argument == FloatArgument(p.atoff(word))
    case AnyFloatKind => argument == FloatArgument(p.atoff(word))
  }

  /** These words, and no more, are what the callback of this type takes, and these are its arguments. */
  ghost predicate Accepts(t: ActionType, words: seq<string>, arguments: seq<Argument>, p: Parsers) {
    && !Uncallable(t) && Signature(t).Some?
    && var (kinds, param) := Signature(t).value;
       && |words| == |kinds| && |arguments| == |kinds| + (if param then 1 else 0)
       && (forall k :: 0 <= k < |kinds| ==> IsArgument(p, kinds[k], words[k], arguments[k]))
       && (param ==> arguments[|kinds|] == CallbackParam)
  }

  /** The kinds of the arguments of every type that can be called, and which types also get the parameter
      they were registered with. */
  lemma {:induction false} WordTypesTake()
    ensures Signature(NO_PARAMETER) == Some(([], false)) && Signature(NO_PARAMETER_P) == Some(([], true))
    ensures Signature(STRING_PARAMETER) == Some(([TextKind], false))
    ensures Signature(STRING2_PARAMETER) == Some(([TextKind, TextKind], false))
    ensures Signature(STRING2_PARAMETER_P) == Some(([TextKind, TextKind], true))
    ensures Signature(STRING3_PARAMETER) == Some(([TextKind, TextKind, TextKind], false))
    ensures Signature(STRING5_PARAMETER) == Some(([TextKind, TextKind, TextKind, TextKind, TextKind], false))
  {
  }

  lemma {:induction false} IntTypesTake()
    ensures Signature(ONE_PARAMETER) == Some(([IntKind], false)) && Signature(ONE_PARAMETER_P) == Some(([IntKind], true))
    ensures Signature(TWO_INTS_PARAMETER) == Some(([IntKind, IntKind], false))
    ensures Signature(INT_FLOAT_PARAMETER) == Some(([IntKind, FloatKind], false))
  {
  }

  lemma {:induction false} FloatTypesTake()
    ensures Signature(FLOAT_PARAMETER) == Some(([FloatKind], false))
    ensures Signature(FLOAT_FLOAT_PARAMETER) == Some(([FloatKind, FloatKind], false))
    ensures Signature(FLOAT_FLOAT_PARAMETER_P) == Some(([FloatKind, FloatKind], true))
    ensures Signature(FLOAT_FLOAT_FLOAT_PARAMETER) == Some(([FloatKind, FloatKind, FloatKind], false))
    ensures Signature(FLOAT_FLOAT_FLOAT_FLOAT_PARAMETER) == Some(([FloatKind, FloatKind, FloatKind, FloatKind], false))
  {
  }

  lemma {:induction false} ConvertsIff(p: Parsers, kind: Kind, word: string, argument: Argument)
    ensures IsArgument(p, kind, word, argument) <==> Converts(p, kind, word) && argument == Converted(p, kind, word)
  {
  }

  lemma {:induction false} CalledWith(t: ActionType, words: seq<string>, p: Parsers, arguments: seq<Argument>)
    requires Signature(t).Some? ==> |Signature(t).value.0| <= |words|
    requires ArgumentsFor(t, words, p) == Some(arguments)
    ensures Signature(t).Some?
    ensures var (kinds, param) := Signature(t).value;
            && |arguments| == |kinds| + (if param then 1 else 0)
            && (forall k :: 0 <= k < |kinds| ==> Converts(p, kinds[k], words[k]) && arguments[k] == Converted(p, kinds[k], words[k]))
            && (param ==> arguments[|kinds|] == CallbackParam)
  {
    hide Signature, Converts, Converted;
  }

  lemma {:induction false} AreArguments(p: Parsers, kinds: seq<Kind>, words: seq<string>, arguments: seq<Argument>)
    requires |kinds| <= |words| && |kinds| <= |arguments|
    ensures (forall k :: 0 <= k < |kinds| ==> IsArgument(p, kinds[k], words[k], arguments[k]))
            <==> forall k :: 0 <= k < |kinds| ==> Converts(p, kinds[k], words[k]) && arguments[k] == Converted(p, kinds[k], words[k])
  {
    forall k | 0 <= k < |kinds|
      ensures IsArgument(p, kinds[k], words[k], arguments[k])
              <==> Converts(p, kinds[k], words[k]) && arguments[k] == Converted(p, kinds[k], words[k])
    {
      ConvertsIff(p, kinds[k], words[k], arguments[k]);
    }
    hide IsArgument, Converts, Converted;
  }

  lemma {:induction false} ArgumentsIff(t: ActionType, words: seq<string>, arguments: seq<Argument>, p: Parsers)
    requires GetParameterCount(t) == |words| && (Signature(t).Some? ==> |Signature(t).value.0| == |words|)
    ensures ArgumentsFor(t, words, p) == Some(arguments) <==> Accepts(t, words, arguments, p)
  {
    CountIff(t, |words|);
    hide GetParameterCount, Signature, Converts, Converted, IsArgument, ArgumentsFor;
    if ArgumentsFor(t, words, p) == Some(arguments) {
      CalledWith(t, words, p, arguments);
      AreArguments(p, Signature(t).value.0, words, arguments);
    } else if Accepts(t, words, arguments, p) {
      AreArguments(p, Signature(t).value.0, words, arguments);
      IsCalled(t, words, p, arguments);
    }
  }

  lemma {:induction false} CountIff(t: ActionType, n: nat)
    ensures !Uncallable(t) && Signature(t).Some? ==> GetParameterCount(t) == |Signature(t).value.0|
    ensures Signature(t).None? ==> Uncallable(t)
    ensures t.FLOAT_PARAMETER_NAN_ALLOWED? || t.STRING_PARAMETER_P? ==> GetParameterCount(t) < 0
  {
  }

  /** A command is carried out exactly when its first word names an action, the first of that name takes just
      as many arguments as there are other words, and each of those can be read; then the action gets them in
      order. Everything else is rejected. */
  lemma {:induction false} DispatchedIff(words: seq<string>, actions: seq<TokenCallback>, p: Parsers, a: nat, arguments: seq<Argument>)
    ensures Dispatched(words, actions, p) == Called(a, arguments) <==>
              && words != [] && a < |actions| && actions[a].token == words[0]
              && (forall k :: 0 <= k < a ==> actions[k].token != words[0])
              && Accepts(actions[a].parameterType, words[1..], arguments, p)
  {
    if words != [] {
      var first := FirstAction(actions, words[0]);
      if first < |actions| {
        var t := actions[first].parameterType;
        HandlersReadTheirOwn(t);
        CountIff(t, |words| - 1);
        if |words| - 1 == GetParameterCount(t) {
          ArgumentsIff(t, words[1..], arguments, p);
        }
      }
    }
    hide ArgumentsFor, Signature, GetParameterCount, Uncallable;
  }

  /** The same of a line, whose words are the texts of its tokens. */
  lemma {:induction false} CalledIff(line: string, actions: seq<TokenCallback>, p: Parsers, a: nat, arguments: seq<Argument>)
    ensures var r := ScanFrom(line, 0, 10);
            forall k :: 0 <= k < |r.tokens| ==> r.tokens[k].from < r.tokens[k].to <= |line|
    ensures var r := ScanFrom(line, 0, 10);
            var words := seq(|r.tokens|, k requires 0 <= k < |r.tokens| => line[r.tokens[k].from..r.tokens[k].to]);
            CommandOutcome(line, actions, p) == Called(a, arguments) <==>
              && r.closed && words != [] && a < |actions| && actions[a].token == words[0]
              && (forall k :: 0 <= k < a ==> actions[k].token != words[0])
              && Accepts(actions[a].parameterType, words[1..], arguments, p)
  {
    ScanShape(line, 0, 10);
    var r := ScanFrom(line, 0, 10);
    var words := seq(|r.tokens|, k requires 0 <= k < |r.tokens| => line[r.tokens[k].from..r.tokens[k].to]);
    assert words == Texts(line, r.tokens);
    DispatchedIff(words, actions, p, a, arguments);
    hide Dispatched, Accepts, ScanFrom, IsSpace;
  }

  /** A token without NUL, short enough for six of them to fit a line. */
  predicate Writable(token: seq<Piece>) {
    TokenValid(token) && '\0' !in Text(token) && |Text(token)| <= 15
  }

  lemma {:induction false} LineFits(words: seq<Word>)
    requires forall i :: 0 <= i < |words| ==> Writable(words[i].token) && words[i].sep == " "
    ensures |Line(words)| <= 16 * |words| && '\0' !in Line(words) && WordsValid(words)
    decreases |words|
  {
    if words != [] {
      LineFits(words[1..]);
      hide Text, TokenValid;
      assert Line(words) == Text(words[0].token) + " " + Line(words[1..]);
    }
  }

  /** The words of a command whose arguments are `n` for integers and `x` for all else. */
  function CommandWords(name: seq<Piece>, kinds: seq<Kind>, n: seq<Piece>, x: seq<Piece>): (words: seq<Word>)
    ensures |words| == |kinds| + 1
  {
    [Word(name, " ")] + seq(|kinds|, k requires 0 <= k < |kinds| => Word(if kinds[k] == IntKind then n else x, " "))
  }

  lemma {:induction false} CommandSpoken(name: seq<Piece>, kinds: seq<Kind>, n: seq<Piece>, x: seq<Piece>)
    requires Writable(name) && Writable(n) && Writable(x)
    ensures var words := CommandWords(name, kinds, n, x);
            && (forall i :: 0 <= i < |words| ==> Writable(words[i].token) && words[i].sep == " ")
            && |Spoken(words)| == |kinds| + 1 && Spoken(words)[0] == Text(name)
            && forall k :: 0 <= k < |kinds| ==> Spoken(words)[k + 1] == if kinds[k] == IntKind then Text(n) else Text(x)
  {
    hide Writable, Text;
  }

  lemma {:induction false} CallableKinds(t: ActionType)
    requires !Uncallable(t)
    ensures Signature(t).Some? && |Signature(t).value.0| == GetParameterCount(t) <= 5
  {
  }

  /** With one token that reads as an integer and one that reads as a float, every other type is called
      by some line that fits the buffer. */
  lemma {:induction false} Callable(t: ActionType, name: seq<Piece>, n: seq<Piece>, x: seq<Piece>, p: Parsers)
    requires !Uncallable(t) && Writable(name) && Writable(n) && Writable(x)
    requires Converts(p, IntKind, Text(n)) && Converts(p, FloatKind, Text(x))
    ensures var line := Line(CommandWords(name, Signature(t).value.0, n, x));
            && |line| <= MAX_CMD_LINE_LENGTH && '\0' !in line
            && CommandOutcome(line, [TokenCallback(Text(name), t)], p).Called?
  {
    CallableKinds(t);
    hide *;
    var kinds := Signature(t).value.0;
    var words := CommandWords(name, kinds, n, x);
    CommandSpoken(name, kinds, n, x);
    LineFits(words);
    NoLead(Line(words));
    CommandReaches(Line(words), "", words, [TokenCallback(Text(name), t)], p);
    CommandCalled(t, kinds, Spoken(words), Text(name), Text(n), Text(x), p);
  }

  lemma {:induction false} NoLead(line: string)
    ensures Blank("") && "" + line == line
  {
  }

  lemma {:induction false} CommandCalled(t: ActionType, kinds: seq<Kind>, texts: seq<string>, name: string, n: string, x: string, p: Parsers)
    requires Signature(t).Some? && kinds == Signature(t).value.0 && |kinds| == GetParameterCount(t)
    requires Converts(p, IntKind, n) && Converts(p, FloatKind, x)
    requires |texts| == |kinds| + 1 && texts[0] == name
    requires forall k :: 0 <= k < |kinds| ==> texts[k + 1] == if kinds[k] == IntKind then n else x
    ensures Dispatched(texts, [TokenCallback(name, t)], p).Called?
  {
    assert FirstAction([TokenCallback(name, t)], name) == 0;
    assert ArgumentsFor(t, texts[1..], p).Some?;
  }

  /** A registered action can be called by some line if and only if its type is none of the four. */
  lemma {:induction false} CallableIff(t: ActionType, name: seq<Piece>, n: seq<Piece>, x: seq<Piece>, p: Parsers)
    requires Writable(name) && Writable(n) && Writable(x)
    requires Converts(p, IntKind, Text(n)) && Converts(p, FloatKind, Text(x))
    ensures (exists line :: |line| <= MAX_CMD_LINE_LENGTH && '\0' !in line
                            && CommandOutcome(line, [TokenCallback(Text(name), t)], p).Called?)
            <==> !Uncallable(t)
  {
    var actions := [TokenCallback(Text(name), t)];
    forall line ensures CommandOutcome(line, actions, p).Called? ==> !Uncallable(t) {
      NeverCalled(line, actions, p);
    }
    if !Uncallable(t) {
      Callable(t, name, n, x, p);
    }
  }
}
