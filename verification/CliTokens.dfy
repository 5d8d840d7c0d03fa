/** setargs of cli_registry.cpp: a command line is cut, in its own buffer, into white-space separated
    tokens in which quoted parts may hold white space. */
module CliTokens {
  import opened Util

  predicate IsSpace(c: char) {
    c == ' ' || c == '\t' || c == '\n' || c == '\U{0b}' || c == '\U{0c}' || c == '\r'
  }

  /** Code 32, and 9 to 13. */
  lemma {:induction false} SpacesAre(c: char)
    ensures IsSpace(c) <==> c as int == 32 || 9 <= c as int <= 13
  {
  }

  // ---------- the scanner as a function of the text ----------

  function SkipSpaces(s: string, i: nat): (j: nat)
    requires i <= |s|
    ensures i <= j <= |s| && (j < |s| ==> !IsSpace(s[j]))
    ensures forall k :: i <= k < j ==> IsSpace(s[k])
    decreases |s| - i
  {
    if i < |s| && IsSpace(s[i]) then SkipSpaces(s, i + 1) else i
  }

  /** The next quote, or the end. */
  function CloseQuote(s: string, i: nat): (j: nat)
    requires i <= |s|
    ensures i <= j <= |s| && (j < |s| ==> s[j] == '"')
    decreases |s| - i
  {
    if i < |s| && s[i] != '"' then CloseQuote(s, i + 1) else i
  }

  /** Where the token that is being read ends; nothing if a quote stays open. */
  function TokenEnd(s: string, i: nat): (e: Option<nat>)
    requires i <= |s|
    ensures e.Some? ==> i <= e.value <= |s| && (e.value < |s| ==> IsSpace(s[e.value]))
    ensures e.Some? && i < |s| && !IsSpace(s[i]) ==> i < e.value
    decreases |s| - i
  {
    if i == |s| || IsSpace(s[i]) then Some(i)
    else if s[i] != '"' then TokenEnd(s, i + 1)
    else
      var q := CloseQuote(s, i + 1);
      if q == |s| then None else TokenEnd(s, q + 1)
  }

  datatype Span = Span(from: nat, to: nat)

  /** Tokens as half-open spans, where scanning stopped, and whether every quote met was closed. */
  datatype Scan = Scan(tokens: seq<Span>, stop: nat, closed: bool)

  function ScanFrom(s: string, i: nat, max: nat): (r: Scan)
    requires i <= |s|
    ensures i <= r.stop <= |s| && |r.tokens| <= max
    decreases max
  {
    var j := SkipSpaces(s, i);
    if j == |s| || max == 0 then Scan([], j, true)
    else
      match TokenEnd(s, j)
      case None => Scan([], j, false)
      case Some(e) =>
        var rest := ScanFrom(s, e, max - 1);
        rest.(tokens := [Span(j, e)] + rest.tokens)
  }

  predicate Ordered(s: string, tokens: seq<Span>, i: nat) {
    && (forall t :: 0 <= t < |tokens| ==> i <= tokens[t].from < tokens[t].to <= |s| && !IsSpace(s[tokens[t].from]))
    && (forall t, u :: 0 <= t < u < |tokens| ==> tokens[t].to < tokens[u].from)
  }

  lemma {:induction false} OrderedStep(s: string, j: nat, e: nat, rest: seq<Span>)
    requires j < e <= |s| && !IsSpace(s[j]) && (e < |s| ==> IsSpace(s[e])) && Ordered(s, rest, e)
    ensures Ordered(s, [Span(j, e)] + rest, j)
  {
    var r := [Span(j, e)] + rest;
    assert forall t :: 0 < t < |r| ==> r[t] == rest[t - 1];
    assert forall t :: 0 <= t < |rest| ==> e < rest[t].from;
  }

  lemma {:induction false} NothingOrdered(s: string, i: nat)
    ensures Ordered(s, [], i)
  {
  }

  lemma {:induction false} OrderedSooner(s: string, tokens: seq<Span>, i: nat, j: nat)
    requires i <= j && Ordered(s, tokens, j)
    ensures Ordered(s, tokens, i)
  {
  }

  lemma {:induction false} ScanUnfold(s: string, i: nat, max: nat)
    requires i <= |s|
    ensures var j := SkipSpaces(s, i);
            ScanFrom(s, i, max) ==
              if j == |s| || max == 0 then Scan([], j, true)
              else if TokenEnd(s, j).None? then Scan([], j, false)
              else var rest := ScanFrom(s, TokenEnd(s, j).value, max - 1);
                   rest.(tokens := [Span(j, TokenEnd(s, j).value)] + rest.tokens)
  {
  }

  lemma {:induction false} StopBeyond(s: string, e: nat, max: nat)
    requires e < |s| && IsSpace(s[e])
    ensures e < ScanFrom(s, e, max).stop
  {
    ScanUnfold(s, e, max);
    hide ScanFrom, TokenEnd, IsSpace;
    assert SkipSpaces(s, e) == SkipSpaces(s, e + 1);
  }

  predicate Shaped(s: string, r: Scan, i: nat, max: nat) {
    && Ordered(s, r.tokens, i)
    && (forall t :: 0 <= t < |r.tokens| ==> r.tokens[t].to < r.stop || r.tokens[t].to == |s|)
    && (if r.closed then r.stop == |s| || |r.tokens| == max else r.stop < |s| && |r.tokens| < max)
  }

  lemma {:induction false} ShapedStep(s: string, r: Scan, i: nat, j: nat, e: nat, max: nat)
    requires Shaped(s, r, e, max) && i <= j < e <= |s| && (e < r.stop || e == |s|)
    requires !IsSpace(s[j]) && (e < |s| ==> IsSpace(s[e]))
    ensures Shaped(s, r.(tokens := [Span(j, e)] + r.tokens), i, max + 1)
  {
    OrderedStep(s, j, e, r.tokens);
    OrderedSooner(s, [Span(j, e)] + r.tokens, i, j);
    hide Ordered, IsSpace;
    var tokens := [Span(j, e)] + r.tokens;
    assert forall t :: 0 < t < |tokens| ==> tokens[t] == r.tokens[t - 1];
  }

  lemma {:induction false} NothingShaped(s: string, i: nat, stop: nat, max: nat, closed: bool)
    requires if closed then stop == |s| || max == 0 else stop < |s| && 0 < max
    ensures Shaped(s, Scan([], stop, closed), i, max)
  {
    NothingOrdered(s, i);
  }

  /** One token ends before the next one starts, with white space between; and scanning stops early
      only at an open quote or when `max` tokens were found. */
  lemma {:induction false} ScanShape(s: string, i: nat, max: nat)
    requires i <= |s|
    ensures Shaped(s, ScanFrom(s, i, max), i, max)
    decreases max
  {
    ScanUnfold(s, i, max);
    hide *;
    var j := SkipSpaces(s, i);
    if j == |s| || max == 0 {
      NothingShaped(s, i, j, max, true);
    } else if TokenEnd(s, j) == None {
      NothingShaped(s, i, j, max, false);
    } else {
      var e := TokenEnd(s, j).value;
      ScanShape(s, e, max - 1);
      if e < |s| { StopBeyond(s, e, max - 1); }
      ShapedStep(s, ScanFrom(s, e, max - 1), i, j, e, max - 1);
    }
  }

  // ---------- quotes ----------

  function Quotes(s: string): nat {
    if s == "" then 0 else Quotes(s[..|s| - 1]) + if s[|s| - 1] == '"' then 1 else 0
  }

  lemma {:induction false} QuotesStep(s: string, i: nat)
    requires i < |s|
    ensures Quotes(s[..i + 1]) == Quotes(s[..i]) + if s[i] == '"' then 1 else 0
  {
    assert s[..i + 1][..i] == s[..i];
  }

  lemma {:induction false} CloseQuoteParity(s: string, i: nat)
    requires i <= |s|
    ensures Quotes(s[..CloseQuote(s, i)]) == Quotes(s[..i])
    decreases |s| - i
  {
    if i < |s| && s[i] != '"' {
      CloseQuoteParity(s, i + 1);
      QuotesStep(s, i);
    }
  }

  /** A token holds an even number of quotes; an unclosed one leaves an odd number. */
  lemma {:induction false} TokenParity(s: string, i: nat)
    requires i <= |s|
    ensures var e := TokenEnd(s, i);
            if e.Some? then Quotes(s[..e.value]) % 2 == Quotes(s[..i]) % 2
            else Quotes(s) % 2 != Quotes(s[..i]) % 2
    decreases |s| - i
  {
    hide CloseQuote, Quotes;
    if i < |s| && !IsSpace(s[i]) {
      QuotesStep(s, i);
      if s[i] != '"' {
        TokenParity(s, i + 1);
      } else {
        var q := CloseQuote(s, i + 1);
        CloseQuoteParity(s, i + 1);
        assert s[..|s|] == s;
        if q < |s| {
          QuotesStep(s, q);
          TokenParity(s, q + 1);
        }
      }
    }
  }

  lemma {:induction false} SpacesParity(s: string, i: nat)
    requires i <= |s|
    ensures Quotes(s[..SkipSpaces(s, i)]) == Quotes(s[..i])
    decreases |s| - i
  {
    if i < |s| && IsSpace(s[i]) {
      QuotesStep(s, i);
      SpacesParity(s, i + 1);
    }
  }

  lemma {:induction false} ScanParity(s: string, i: nat, max: nat)
    requires i <= |s|
    ensures var r := ScanFrom(s, i, max);
            && (r.closed ==> Quotes(s[..r.stop]) % 2 == Quotes(s[..i]) % 2)
            && (!r.closed ==> Quotes(s) % 2 != Quotes(s[..i]) % 2)
    decreases max
  {
    ScanUnfold(s, i, max);
    hide *;
    var j := SkipSpaces(s, i);
    SpacesParity(s, i);
    if j < |s| && max > 0 {
      TokenParity(s, j);
      if TokenEnd(s, j).Some? {
        ScanParity(s, TokenEnd(s, j).value, max - 1);
      }
    }
  }

  /** The line is refused exactly when its quotes do not pair up and the open one comes within the
      first `max` tokens: a quote left open after them is never looked at. */
  lemma {:induction false} RefusedIff(s: string, max: nat)
    ensures var r := ScanFrom(s, 0, max);
            !r.closed <==> Quotes(s) % 2 == 1 && |r.tokens| < max
  {
    ScanShape(s, 0, max);
    ScanParity(s, 0, max);
    assert s[..0] == "" && s[..|s|] == s;
  }

  /** One token asked for, and the quote that opens after it is not noticed. */
  lemma {:induction false} OpenQuoteUnnoticed()
    ensures ScanFrom("a \"", 0, 1) == Scan([Span(0, 1)], 2, true) && Quotes("a \"") == 1
    ensures !ScanFrom("a \"", 0, 2).closed
  {
    var s := "a \"";
    assert TokenEnd(s, 0) == Some(1) && SkipSpaces(s, 0) == 0 && SkipSpaces(s, 1) == 2;
    assert CloseQuote(s, 3) == 3 && TokenEnd(s, 2) == None;
    ScanUnfold(s, 0, 1);
    ScanUnfold(s, 0, 2);
    ScanUnfold(s, 1, 0);
    ScanUnfold(s, 1, 1);
    QuotesStep(s, 2);
    QuotesStep(s, 1);
    QuotesStep(s, 0);
    assert s[..3] == s && s[..0] == "";
  }

  // ---------- lines made of tokens come back as those tokens ----------

  datatype Piece = Plain(c: char) | Quoted(body: string)

  predicate PieceValid(p: Piece) {
    match p
    case Plain(c) => !IsSpace(c) && c != '"'
    case Quoted(body) => '"' !in body
  }

  function PieceText(p: Piece): string {
    match p
    case Plain(c) => [c]
    case Quoted(body) => ['"'] + body + ['"']
  }

  function Text(token: seq<Piece>): string {
    if token == [] then "" else PieceText(token[0]) + Text(token[1..])
  }

  predicate TokenValid(token: seq<Piece>) {
    token != [] && forall p <- token :: PieceValid(p)
  }

  predicate Blank(sep: string) {
    forall c <- sep :: IsSpace(c)
  }

  /** A token and the white space after it. */
  datatype Word = Word(token: seq<Piece>, sep: string)

  predicate WordsValid(words: seq<Word>) {
    && (forall w <- words :: TokenValid(w.token) && Blank(w.sep))
    && (forall k :: 0 <= k < |words| - 1 ==> words[k].sep != "")
  }

  function Line(words: seq<Word>): string {
    if words == [] then "" else Text(words[0].token) + words[0].sep + Line(words[1..])
  }

  lemma {:induction false} Split(s: string, i: nat, a: string, rest: string)
    requires i <= |s| && s[i..] == a + rest
    ensures i + |a| <= |s| && s[i..i + |a|] == a && s[i + |a|..] == rest
    ensures a != "" ==> s[i] == a[0]
    ensures rest != "" ==> s[i + |a|] == rest[0]
  {
    var t := s[i..];
    assert s[i..i + |a|] == t[..|a|] && s[i + |a|..] == t[|a|..];
    assert a != "" ==> s[i] == t[0];
    assert rest != "" ==> s[i + |a|] == t[|a|];
  }

  lemma {:induction false} QuoteFound(s: string, i: nat, body: string, rest: string)
    requires i <= |s| && s[i..] == body + (['"'] + rest) && '"' !in body
    ensures i + |body| < |s| && CloseQuote(s, i) == i + |body|
    decreases |body|
  {
    Split(s, i, body, ['"'] + rest);
    if body != "" {
      assert body + (['"'] + rest) == [body[0]] + (body[1..] + (['"'] + rest));
      Split(s, i, [body[0]], body[1..] + (['"'] + rest));
      QuoteFound(s, i + 1, body[1..], rest);
    }
  }

  lemma {:induction false} QuotedEnd(s: string, i: nat, q: nat)
    requires i < q < |s| && s[i] == '"' && CloseQuote(s, i + 1) == q
    ensures TokenEnd(s, i) == TokenEnd(s, q + 1)
  {
  }

  lemma {:induction false} QuotedRead(s: string, i: nat, body: string, more: string)
    requires i <= |s| && s[i..] == ['"'] + (body + (['"'] + more)) && '"' !in body
    ensures var next := i + |body| + 2;
            next <= |s| && s[next..] == more && TokenEnd(s, i) == TokenEnd(s, next)
  {
    hide *;
    Split(s, i, ['"'], body + (['"'] + more));
    Split(s, i + 1, body, ['"'] + more);
    QuoteFound(s, i + 1, body, more);
    QuotedEnd(s, i, i + 1 + |body|);
    Split(s, i + 1 + |body|, ['"'], more);
  }

  lemma {:induction false} PieceRead(s: string, i: nat, p: Piece, more: string)
    requires i <= |s| && s[i..] == PieceText(p) + more && PieceValid(p)
    ensures var next := i + |PieceText(p)|;
            next <= |s| && s[next..] == more && TokenEnd(s, i) == TokenEnd(s, next)
  {
    hide *;
    match p
    case Quoted(body) =>
      QuotedText(body, more);
      QuotedRead(s, i, body, more);
    case Plain(c) => PlainRead(s, i, c, more);
  }

  lemma {:induction false} QuotedText(body: string, more: string)
    ensures PieceText(Quoted(body)) + more == ['"'] + (body + (['"'] + more))
    ensures |PieceText(Quoted(body))| == |body| + 2 && (PieceValid(Quoted(body)) <==> '"' !in body)
  {
    Associate(['"'] + body, ['"'], more);
    Associate(['"'], body, ['"'] + more);
  }

  lemma {:induction false} PlainRead(s: string, i: nat, c: char, more: string)
    requires i <= |s| && s[i..] == PieceText(Plain(c)) + more && PieceValid(Plain(c))
    ensures |PieceText(Plain(c))| == 1
    ensures i < |s| && s[i + 1..] == more && TokenEnd(s, i) == TokenEnd(s, i + 1)
  {
    Split(s, i, [c], more);
  }

  lemma {:induction false} TextStep(token: seq<Piece>)
    requires token != []
    ensures Text(token) == PieceText(token[0]) + Text(token[1..])
  {
  }

  lemma {:induction false} TokenDone(s: string, i: nat, rest: string)
    requires i <= |s| && s[i..] == Text([]) + rest && (rest == "" || IsSpace(rest[0]))
    ensures Text([]) == "" && TokenEnd(s, i) == Some(i)
  {
    Split(s, i, "", rest);
  }

  lemma {:induction false} TokenRead(s: string, i: nat, token: seq<Piece>, rest: string)
    requires i <= |s| && s[i..] == Text(token) + rest
    requires forall p <- token :: PieceValid(p)
    requires rest == "" || IsSpace(rest[0])
    ensures i + |Text(token)| <= |s| && TokenEnd(s, i) == Some(i + |Text(token)|)
    decreases |token|
  {
    hide *;
    Split(s, i, Text(token), rest);
    if token == [] {
      TokenDone(s, i, rest);
    } else {
      TextStep(token);
      var head, tail := PieceText(token[0]), Text(token[1..]);
      assert PieceValid(token[0]);
      Associate(head, tail, rest);
      PieceRead(s, i, token[0], tail + rest);
      TokenRead(s, i + |head|, token[1..], rest);
    }
  }

  lemma {:induction false} BlankSkipped(s: string, i: nat, sep: string, rest: string)
    requires i <= |s| && s[i..] == sep + rest && Blank(sep)
    requires rest == "" || !IsSpace(rest[0])
    ensures i + |sep| <= |s| && SkipSpaces(s, i) == i + |sep|
    decreases |sep|
  {
    Split(s, i, sep, rest);
    if sep != "" {
      assert IsSpace(sep[0]) && Blank(sep[1..]);
      assert sep + rest == [sep[0]] + (sep[1..] + rest);
      Split(s, i, [sep[0]], sep[1..] + rest);
      BlankSkipped(s, i + 1, sep[1..], rest);
    }
  }

  lemma {:induction false} LineStarts(words: seq<Word>)
    requires WordsValid(words) && words != []
    ensures Text(words[0].token) != "" && !IsSpace(Text(words[0].token)[0])
    ensures Line(words) != "" && !IsSpace(Line(words)[0])
    ensures Blank(words[0].sep) && WordsValid(words[1..])
    ensures words[1..] != [] ==> words[0].sep != ""
  {
    var w := words[0];
    assert TokenValid(w.token) && PieceValid(w.token[0]);
    assert Text(w.token)[0] == PieceText(w.token[0])[0];
    assert forall k :: 0 <= k < |words| - 1 ==> words[1..][k] == words[k + 1];
  }

  /** These tokens are the texts of the first words. */
  predicate Spells(s: string, tokens: seq<Span>, words: seq<Word>) {
    && |tokens| <= |words|
    && forall k :: 0 <= k < |tokens| ==>
         && tokens[k].from <= tokens[k].to <= |s|
         && s[tokens[k].from..tokens[k].to] == Text(words[k].token)
  }

  /** Tokens with any quoting, joined by any white space: the first `max` of them come back unchanged. */
  lemma {:induction false} LineRead(s: string, i: nat, lead: string, words: seq<Word>, max: nat)
    requires i <= |s| && s[i..] == lead + Line(words) && Blank(lead) && WordsValid(words)
    ensures var r := ScanFrom(s, i, max);
            r.closed && |r.tokens| == (if max < |words| then max else |words|) && Spells(s, r.tokens, words)
    decreases |words|
  {
    hide *;
    if words == [] || max == 0 {
      LineDone(s, i, lead, words, max);
    } else {
      var j, e := WordRead(s, i, lead, words);
      LineRead(s, e, words[0].sep, words[1..], max - 1);
      LineReadStep(s, i, j, e, max);
      WordsStep(s, words, Span(j, e), ScanFrom(s, e, max - 1).tokens);
    }
  }

  lemma {:induction false} LineStep(words: seq<Word>)
    requires words != [] && WordsValid(words)
    ensures var rest := words[0].sep + Line(words[1..]);
            Line(words) == Text(words[0].token) + rest && (rest == "" || IsSpace(rest[0]))
    ensures forall p <- words[0].token :: PieceValid(p)
  {
    var w, more := words[0], words[1..];
    LineStarts(words);
    Associate(Text(w.token), w.sep, Line(more));
    if w.sep != "" { assert (w.sep + Line(more))[0] == w.sep[0]; }
    assert TokenValid(w.token);
  }

  lemma {:induction false} WordRead(s: string, i: nat, lead: string, words: seq<Word>) returns (j: nat, e: nat)
    requires i <= |s| && s[i..] == lead + Line(words) && Blank(lead) && WordsValid(words) && words != []
    ensures j == SkipSpaces(s, i) && j < e <= |s| && TokenEnd(s, j) == Some(e) && s[j..e] == Text(words[0].token)
    ensures s[e..] == words[0].sep + Line(words[1..]) && Blank(words[0].sep) && WordsValid(words[1..])
  {
    hide *;
    LineStarts(words);
    LineStep(words);
    j := LeadRead(s, i, lead, Line(words));
    e := FirstRead(s, j, words[0].token, words[0].sep + Line(words[1..]));
  }

  lemma {:induction false} LeadRead(s: string, i: nat, lead: string, line: string) returns (j: nat)
    requires i <= |s| && s[i..] == lead + line && Blank(lead) && line != "" && !IsSpace(line[0])
    ensures j == SkipSpaces(s, i) && j < |s| && s[j..] == line
  {
    hide *;
    Split(s, i, lead, line);
    BlankSkipped(s, i, lead, line);
    j := i + |lead|;
  }

  lemma {:induction false} FirstRead(s: string, j: nat, token: seq<Piece>, rest: string) returns (e: nat)
    requires j <= |s| && s[j..] == Text(token) + rest && Text(token) != ""
    requires forall p <- token :: PieceValid(p)
    requires rest == "" || IsSpace(rest[0])
    ensures j < e <= |s| && TokenEnd(s, j) == Some(e) && s[j..e] == Text(token) && s[e..] == rest
  {
    hide *;
    Split(s, j, Text(token), rest);
    TokenRead(s, j, token, rest);
    e := j + |Text(token)|;
  }

  lemma {:induction false} LineDone(s: string, i: nat, lead: string, words: seq<Word>, max: nat)
    requires i <= |s| && s[i..] == lead + Line(words) && Blank(lead) && WordsValid(words) && (words == [] || max == 0)
    ensures ScanFrom(s, i, max).closed && ScanFrom(s, i, max).tokens == [] && Spells(s, [], words)
  {
    if words != [] { LineStarts(words); }
    BlankSkipped(s, i, lead, Line(words));
  }

  lemma {:induction false} WordsStep(s: string, words: seq<Word>, t: Span, rest: seq<Span>)
    requires words != [] && Spells(s, rest, words[1..])
    requires t.from <= t.to <= |s| && s[t.from..t.to] == Text(words[0].token)
    ensures Spells(s, [t] + rest, words)
  {
    hide Text;
    var tokens := [t] + rest;
    forall k | 0 < k < |tokens|
      ensures tokens[k].from <= tokens[k].to <= |s| && s[tokens[k].from..tokens[k].to] == Text(words[k].token)
    {
      assert tokens[k] == rest[k - 1] && words[1..][k - 1] == words[k];
    }
  }

  lemma {:induction false} LineReadStep(s: string, i: nat, j: nat, e: nat, max: nat)
    requires i <= |s| && j == SkipSpaces(s, i) && j < |s| && max > 0 && TokenEnd(s, j) == Some(e)
    ensures e <= |s|
    ensures var r, rest := ScanFrom(s, i, max), ScanFrom(s, e, max - 1);
            r.closed == rest.closed && r.tokens == [Span(j, e)] + rest.tokens
  {
    ScanUnfold(s, i, max);
  }

  // ---------- the same in the line buffer ----------

  ghost predicate InToken(tokens: seq<Span>, k: nat) {
    exists t :: 0 <= t < |tokens| && tokens[t].from <= k < tokens[t].to
  }

  /** The buffer after scanning: what was scanned and is not in a token is now NUL. */
  ghost predicate Blanked(b: seq<char>, was: seq<char>, tokens: seq<Span>, stop: nat)
    requires |b| == |was|
  {
    forall k :: 0 <= k < |b| ==> b[k] == if k < stop && !InToken(tokens, k) then '\0' else was[k]
  }
}
