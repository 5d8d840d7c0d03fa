/** The logging pipeline as interleaved steps: printing threads, the flusher thread and the
    reader that swaps the output buffers share 24 line buffers and two mailboxes. */
module LogPipeline {
  import opened Util
  import opened LogBuffers

  const LINE_BUFFER_COUNT := 24

  type Line = n: nat | n < LINE_BUFFER_COUNT

  /** One thing put into a write buffer: a line that was printed, or scheduled text. */
  datatype Entry = Printed(text: seq<char>) | Scheduled(text: seq<char>)

  /** `held` are the buffers printing threads are working on, `fetched` and `written` the one the
      flusher has. The histories at the end are not part of the program. */
  datatype Pipeline = Pipeline(
    free: seq<Line>,
    filled: seq<Line>,
    held: seq<Line>,
    fetched: Option<Line>,
    written: Option<Line>,
    lines: seq<seq<char>>,
    writeBuffer: seq<char>,
    readBuffer: seq<char>,
    capacity: nat,
    drafts: seq<Option<seq<char>>>,   // what the holders have printed so far, as it was before sanitizing
    printed: seq<seq<char>>,          // the same of the messages posted to the filled queue
    log: seq<Entry>,                  // everything ever put into a write buffer
    previous: nat,                    // where in it the read buffer begins
    start: nat)                       // and where the write buffer begins

  datatype Step =
    | Acquire                          // fetchI on the free queue
    | Format(i: nat, text: seq<char>)  // printing into a held buffer
    | Publish(i: nat)                  // postI to the filled queue
    | Fetch
    | WriteLine
    | Return
    | Schedule(text: seq<char>)        // scheduleLogging, under the buffer mutex
    | Swap                             // swapOutputBuffers

  predicate Enabled(p: Pipeline, step: Step) {
    match step
    case Acquire => p.free != []
    case Format(i, text) => i < |p.held| == |p.drafts| && |p.lines| == LINE_BUFFER_COUNT && |text| < LINE_SIZE - 1
    case Publish(i) => i < |p.held| == |p.drafts| && p.drafts[i].Some?
    case Fetch => p.filled != [] && p.fetched == None && p.written == None
    case WriteLine => p.fetched.Some? && p.written == None && |p.lines| == LINE_BUFFER_COUNT
    case Return => p.written.Some?
    case Schedule(text) => '\0' !in text
    case Swap => true
  }

  function Remove<T>(s: seq<T>, i: nat): seq<T>
    requires i < |s|
  {
    s[..i] + s[i + 1..]
  }

  function Apply(p: Pipeline, step: Step): Pipeline
    requires Enabled(p, step)
  {
    match step
    case Acquire => p.(free := p.free[1..], held := p.held + [p.free[0]], drafts := p.drafts + [None])
    case Format(i, text) => p.(lines := p.lines[p.held[i] := Sanitize(text)], drafts := p.drafts[i := Some(text)])
    case Publish(i) =>
      p.(held := Remove(p.held, i), filled := p.filled + [p.held[i]],
         drafts := Remove(p.drafts, i), printed := p.printed + [p.drafts[i].value])
    case Fetch => p.(filled := p.filled[1..], fetched := Some(p.filled[0]))
    case WriteLine =>
      var text := p.lines[p.fetched.value];
      p.(fetched := None, written := p.fetched, writeBuffer := Truncate(p.writeBuffer + text, p.capacity),
         log := p.log + [Printed(text)])
    case Return => p.(written := None, free := p.free + [p.written.value])
    case Schedule(text) =>
      p.(writeBuffer := Truncate(p.writeBuffer + text, p.capacity), log := p.log + [Scheduled(text)])
    case Swap => p.(writeBuffer := [], readBuffer := p.writeBuffer, previous := p.start, start := |p.log|)
  }

  function One(o: Option<Line>): seq<Line> {
    match o case None => [] case Some(l) => [l]
  }

  function Everyone(p: Pipeline): multiset<Line> {
    multiset(p.free) + multiset(p.filled) + multiset(p.held) + multiset(One(p.fetched)) + multiset(One(p.written))
  }

  function AllLines(): (s: seq<Line>)
    ensures |s| == LINE_BUFFER_COUNT && forall i :: 0 <= i < |s| ==> s[i] == i
  {
    seq(LINE_BUFFER_COUNT, i requires 0 <= i < LINE_BUFFER_COUNT => i)
  }

  /** After startLoggingProcessor. */
  ghost predicate Init(p: Pipeline) {
    && p.free == AllLines() && p.filled == p.held == [] && p.fetched == p.written == None
    && |p.lines| == LINE_BUFFER_COUNT
    && p.writeBuffer == p.readBuffer == []
    && p.drafts == [] && p.printed == [] && p.log == [] && p.previous == p.start == 0
  }

  /** Every line buffer is in exactly one place. */
  ghost predicate Partitioned(p: Pipeline) {
    Everyone(p) == multiset(AllLines()) && |p.lines| == LINE_BUFFER_COUNT
  }

  function Texts(lines: seq<seq<char>>, s: seq<Line>): (r: seq<seq<char>>)
    requires |lines| == LINE_BUFFER_COUNT
    ensures |r| == |s| && forall i :: 0 <= i < |s| ==> r[i] == lines[s[i]]
  {
    seq(|s|, i requires 0 <= i < |s| => lines[s[i]])
  }

  function Sanitized(texts: seq<seq<char>>): (r: seq<seq<char>>)
    ensures |r| == |texts| && forall i :: 0 <= i < |r| ==> r[i] == Sanitize(texts[i])
  {
    seq(|texts|, i requires 0 <= i < |texts| => Sanitize(texts[i]))
  }

  /** The printed lines of a log, and all its texts. */
  function Lines(log: seq<Entry>): seq<seq<char>> {
    if log == [] then [] else (if log[0].Printed? then [log[0].text] else []) + Lines(log[1..])
  }

  function AllTexts(log: seq<Entry>): (r: seq<seq<char>>)
    ensures |r| == |log| && forall i :: 0 <= i < |r| ==> r[i] == log[i].text
  {
    seq(|log|, i requires 0 <= i < |log| => log[i].text)
  }

  /** What a holder has printed is what its buffer holds. */
  ghost predicate Drafted(p: Pipeline)
    requires |p.lines| == LINE_BUFFER_COUNT
  {
    && |p.drafts| == |p.held|
    && forall i :: 0 <= i < |p.held| && p.drafts[i].Some? ==> p.lines[p.held[i]] == Sanitize(p.drafts[i].value)
  }

  /** Messages leave the pipeline sanitized and in the order they were posted, none lost or overwritten. */
  ghost predicate InOrder(p: Pipeline)
    requires |p.lines| == LINE_BUFFER_COUNT
  {
    Sanitized(p.printed) == Lines(p.log) + Texts(p.lines, Queue(p))
  }

  /** Each output buffer holds its part of the log, as far as it fits; the parts are adjacent. */
  ghost predicate BuffersHold(p: Pipeline) {
    && p.previous <= p.start <= |p.log|
    && p.writeBuffer == Truncate(Flatten(AllTexts(p.log[p.start..])), p.capacity)
    && p.readBuffer == Truncate(Flatten(AllTexts(p.log[p.previous..p.start])), p.capacity)
  }

  ghost predicate Inv(p: Pipeline) {
    Partitioned(p) && Drafted(p) && InOrder(p) && BuffersHold(p)
  }

  // ---------- where the buffers are ----------

  lemma {:induction false} CountsOnce(n: nat, l: Line)
    requires n <= LINE_BUFFER_COUNT
    ensures multiset(AllLines()[..n])[l] == if l < n then 1 else 0
  {
    if n > 0 {
      CountsOnce(n - 1, l);
      assert AllLines()[..n] == AllLines()[..n - 1] + [n - 1];
    }
  }

  lemma {:induction false} Counts(p: Pipeline, l: Line)
    requires Partitioned(p)
    ensures multiset(p.free)[l] + multiset(p.filled)[l] + multiset(p.held)[l]
          + multiset(One(p.fetched))[l] + multiset(One(p.written))[l] == 1
  {
    CountsOnce(LINE_BUFFER_COUNT, l);
    assert AllLines()[..LINE_BUFFER_COUNT] == AllLines();
  }

  lemma {:induction false} OnlyOnce<T>(s: seq<T>, i: nat)
    requires i < |s| && multiset(s)[s[i]] == 1
    ensures forall j :: 0 <= j < |s| && j != i ==> s[j] != s[i]
  {
    assert s == s[..i] + [s[i]] + s[i + 1..];
    assert s[i] !in multiset(s[..i]) && s[i] !in multiset(s[i + 1..]);
    forall j | 0 <= j < |s| && j != i ensures s[j] != s[i] {
      if j < i { assert s[j] == s[..i][j]; } else { assert s[j] == s[i + 1..][j - i - 1]; }
    }
  }

  /** A buffer some thread holds is neither queued nor with the flusher nor held by another thread. */
  lemma {:induction false} HeldIsPrivate(p: Pipeline, i: nat)
    requires Partitioned(p) && i < |p.held|
    ensures var l := p.held[i];
            && l !in p.free && l !in One(p.fetched) + p.filled && l !in One(p.written)
            && forall j :: 0 <= j < |p.held| && j != i ==> p.held[j] != l
  {
    var l := p.held[i];
    Counts(p, l);
    assert l in multiset(p.held);
    OnlyOnce(p.held, i);
    assert l !in multiset(p.free) && l !in multiset(p.filled) && l !in multiset(One(p.fetched)) && l !in multiset(One(p.written));
  }

  /** Neither mailbox, each with room for all buffers, can be full when a buffer is posted. */
  lemma {:induction false} PostsSucceed(p: Pipeline)
    requires Inv(p)
    ensures p.held != [] ==> |p.filled| < LINE_BUFFER_COUNT
    ensures p.written.Some? ==> |p.free| < LINE_BUFFER_COUNT
    ensures |p.free| + |p.filled| <= LINE_BUFFER_COUNT
  {
    assert |Everyone(p)| == |p.free| + |p.filled| + |p.held| + |One(p.fetched)| + |One(p.written)|;
    assert |multiset(AllLines())| == LINE_BUFFER_COUNT;
  }

  // ---------- the steps ----------

  lemma {:induction false} RemoveSplits<T>(s: seq<T>, i: nat)
    requires i < |s|
    ensures multiset(s) == multiset(Remove(s, i)) + multiset{s[i]}
    ensures i == 0 ==> Remove(s, i) == s[1..]
  {
    assert s == s[..i] + [s[i]] + s[i + 1..];
  }

  lemma {:induction false} Moved(p: Pipeline, p': Pipeline)
    requires p'.free == p.free && p'.filled == p.filled && p'.held == p.held
    requires One(p'.fetched) == One(p.written) && One(p'.written) == One(p.fetched)
    ensures Everyone(p') == Everyone(p)
  {
  }

  lemma {:induction false} AcquirePartitioned(p: Pipeline)
    requires Partitioned(p) && Enabled(p, Acquire)
    ensures Partitioned(Apply(p, Acquire))
  {
    hide AllLines;
    var p' := Apply(p, Acquire);
    RemoveSplits(p.free, 0);
    assert multiset(p'.held) == multiset(p.held) + multiset{p.free[0]};
  }

  lemma {:induction false} PublishPartitioned(p: Pipeline, i: nat)
    requires Partitioned(p) && Enabled(p, Publish(i))
    ensures Partitioned(Apply(p, Publish(i)))
  {
    hide AllLines, Remove;
    var p' := Apply(p, Publish(i));
    RemoveSplits(p.held, i);
    assert multiset(p'.filled) == multiset(p.filled) + multiset{p.held[i]};
    MoveOne(multiset(p.free), multiset(p.filled), multiset(p'.held), multiset(One(p.fetched)), multiset(One(p.written)), p.held[i]);
  }

  lemma {:induction false} MoveOne(a: multiset<Line>, b: multiset<Line>, c: multiset<Line>, d: multiset<Line>, e: multiset<Line>, x: Line)
    ensures a + (b + multiset{x}) + c + d + e == a + b + (c + multiset{x}) + d + e
  {
  }

  lemma {:induction false} FetchPartitioned(p: Pipeline)
    requires Partitioned(p) && Enabled(p, Fetch)
    ensures Partitioned(Apply(p, Fetch))
  {
    hide AllLines;
    var p' := Apply(p, Fetch);
    hide Remove;
    RemoveSplits(p.filled, 0);
    var x := p.filled[0];
    assert One(p'.fetched) == [x] && One(p.fetched) == [] && multiset([x]) == multiset{x};
    MoveToFlusher(multiset(p.free), multiset(p'.filled), multiset(p.held), multiset(One(p.written)), x);
  }

  lemma {:induction false} MoveToFlusher(a: multiset<Line>, b: multiset<Line>, c: multiset<Line>, e: multiset<Line>, x: Line)
    ensures a + (b + multiset{x}) + c + multiset{} + e == a + b + c + multiset{x} + e
  {
  }

  lemma {:induction false} ReturnPartitioned(p: Pipeline)
    requires Partitioned(p) && Enabled(p, Return)
    ensures Partitioned(Apply(p, Return))
  {
    hide AllLines;
    var p' := Apply(p, Return);
    assert multiset(p'.free) == multiset(p.free) + multiset(One(p.written)) && One(p'.written) == [];
  }

  lemma {:induction false} StepPartitioned(p: Pipeline, step: Step)
    requires Partitioned(p) && Enabled(p, step)
    ensures Partitioned(Apply(p, step))
  {
    hide AllLines, Sanitize, Truncate, Everyone;
    match step
    case Acquire => AcquirePartitioned(p);
    case Publish(i) => PublishPartitioned(p, i);
    case Fetch => FetchPartitioned(p);
    case WriteLine => Moved(p, Apply(p, step));
    case Return => ReturnPartitioned(p);
    case _ => SamePlaces(p, Apply(p, step));
  }

  lemma {:induction false} SamePlaces(p: Pipeline, p': Pipeline)
    requires p'.free == p.free && p'.filled == p.filled && p'.held == p.held
    requires p'.fetched == p.fetched && p'.written == p.written
    ensures Everyone(p') == Everyone(p)
  {
  }

  function Queue(p: Pipeline): seq<Line> {
    One(p.fetched) + p.filled
  }

  lemma {:induction false} FormatInOrder(p: Pipeline, i: nat, text: seq<char>)
    requires Partitioned(p) && Drafted(p) && InOrder(p) && Enabled(p, Format(i, text))
    ensures Drafted(Apply(p, Format(i, text))) && InOrder(Apply(p, Format(i, text)))
  {
    hide Sanitize;
    HeldIsPrivate(p, i);
    hide Partitioned, Everyone;
    var p' := Apply(p, Format(i, text));
    forall j | 0 <= j < |Queue(p)| ensures p'.lines[Queue(p)[j]] == p.lines[Queue(p)[j]] {
      assert Queue(p)[j] in Queue(p);
    }
    assert Texts(p'.lines, Queue(p)) == Texts(p.lines, Queue(p));
  }

  lemma {:induction false} LinesSnoc(log: seq<Entry>, e: Entry)
    ensures Lines(log + [e]) == Lines(log) + if e.Printed? then [e.text] else []
  {
    if log == [] {
      assert [e][1..] == [];
    } else {
      LinesSnoc(log[1..], e);
      assert (log + [e])[1..] == log[1..] + [e];
    }
  }

  lemma {:induction false} SanitizedSnoc(texts: seq<seq<char>>, text: seq<char>)
    ensures Sanitized(texts + [text]) == Sanitized(texts) + [Sanitize(text)]
  {
  }

  lemma {:induction false} PublishInOrder(p: Pipeline, i: nat)
    requires Partitioned(p) && Drafted(p) && InOrder(p) && Enabled(p, Publish(i))
    ensures Drafted(Apply(p, Publish(i))) && InOrder(Apply(p, Publish(i)))
  {
    var p' := Apply(p, Publish(i));
    SanitizedSnoc(p.printed, p.drafts[i].value);
    TextsOf(p.lines, Queue(p), p.held[i]);
    hide Sanitized, Lines, Texts, Partitioned, Sanitize;
    assert Queue(p') == Queue(p) + [p.held[i]];
    Associate(Lines(p.log), Texts(p.lines, Queue(p)), [p.lines[p.held[i]]]);
    forall j | 0 <= j < |p'.held| && p'.drafts[j].Some? ensures p'.lines[p'.held[j]] == Sanitize(p'.drafts[j].value) {
      var k := if j < i then j else j + 1;
      assert p'.held[j] == p.held[k] && p'.drafts[j] == p.drafts[k];
    }
  }

  lemma {:induction false} WriteInOrder(p: Pipeline)
    requires Partitioned(p) && InOrder(p) && Enabled(p, WriteLine)
    ensures InOrder(Apply(p, WriteLine))
  {
    var p', l := Apply(p, WriteLine), p.fetched.value;
    TextsFrom(p.lines, l, Queue(p'));
    LinesSnoc(p.log, Printed(p.lines[l]));
    hide Sanitized, Lines, Texts, Partitioned, Truncate;
    assert Queue(p) == [l] + Queue(p');
    Associate(Lines(p.log), [p.lines[l]], Texts(p.lines, Queue(p')));
  }

  lemma {:induction false} StepInOrder(p: Pipeline, step: Step)
    requires Partitioned(p) && Drafted(p) && InOrder(p) && Enabled(p, step)
    ensures |Apply(p, step).lines| == LINE_BUFFER_COUNT && Drafted(Apply(p, step)) && InOrder(Apply(p, step))
  {
    hide Everyone, Sanitize, Truncate, AllLines, Texts, Sanitized, Lines;
    var p' := Apply(p, step);
    match step
    case Format(i, text) => FormatInOrder(p, i, text);
    case Publish(i) => PublishInOrder(p, i);
    case Fetch => assert Queue(p') == Queue(p);
    case WriteLine => WriteInOrder(p);
    case Schedule(text) => LinesSnoc(p.log, Scheduled(text));
                           assert Lines(p.log) + [] == Lines(p.log);
    case _ => assert Queue(p') == Queue(p) && p'.lines == p.lines;
  }

  lemma {:induction false} TextsOf(lines: seq<seq<char>>, s: seq<Line>, l: Line)
    requires |lines| == LINE_BUFFER_COUNT
    ensures Texts(lines, s + [l]) == Texts(lines, s) + [lines[l]]
  {
  }

  lemma {:induction false} TextsFrom(lines: seq<seq<char>>, l: Line, s: seq<Line>)
    requires |lines| == LINE_BUFFER_COUNT
    ensures Texts(lines, [l] + s) == [lines[l]] + Texts(lines, s)
  {
  }

  lemma {:induction false} PutBuffers(p: Pipeline, p': Pipeline, e: Entry)
    requires BuffersHold(p) && p'.log == p.log + [e] && p'.writeBuffer == Truncate(p.writeBuffer + e.text, p.capacity)
    requires p'.readBuffer == p.readBuffer && p'.start == p.start && p'.previous == p.previous && p'.capacity == p.capacity
    ensures BuffersHold(p')
  {
    var part := p.log[p.start..];
    hide Truncate;
    assert p'.log[p.start..] == part + [e] && p'.log[p.previous..p.start] == p.log[p.previous..p.start];
    assert AllTexts(part + [e]) == AllTexts(part) + [e.text];
    FlattenSnoc(AllTexts(part), e.text);
    TruncateTwice(Flatten(AllTexts(part)), e.text, p.capacity);
  }

  lemma {:induction false} SwapBuffers(p: Pipeline)
    requires BuffersHold(p)
    ensures BuffersHold(Apply(p, Swap))
  {
    hide Truncate;
    assert p.log[p.start..|p.log|] == p.log[p.start..] && p.log[|p.log|..] == [];
    TruncateNothing<char>(p.capacity);
    assert Flatten(AllTexts([])) == [];
  }

  lemma {:induction false} StepBuffers(p: Pipeline, step: Step)
    requires BuffersHold(p) && Enabled(p, step)
    ensures BuffersHold(Apply(p, step))
  {
    hide Truncate, Sanitize, AllTexts, Flatten;
    var p' := Apply(p, step);
    match step
    case WriteLine => PutBuffers(p, p', Printed(p.lines[p.fetched.value]));
    case Schedule(text) => PutBuffers(p, p', Scheduled(text));
    case Swap => SwapBuffers(p);
    case _ =>
  }

  lemma {:induction false} TruncateNothing<T>(capacity: nat)
    ensures Truncate<T>([], capacity) == []
  {
  }

  ghost predicate IsRun(states: seq<Pipeline>, steps: seq<Step>) {
    && |states| == |steps| + 1 && Init(states[0])
    && forall i :: 0 <= i < |steps| ==> Enabled(states[i], steps[i]) && states[i + 1] == Apply(states[i], steps[i])
  }

  /** In every interleaving every line buffer is in exactly one place; the lines written out are the first ones
      printed, sanitized, in order; and each output buffer holds exactly the first bytes, as many as fit, of
      what was put into it since its last reset. */
  lemma {:induction false} EveryRun(states: seq<Pipeline>, steps: seq<Step>, n: nat)
    requires IsRun(states, steps) && n < |states|
    ensures Inv(states[n])
    ensures Lines(states[n].log) <= Sanitized(states[n].printed)
  {
    if n == 0 {
      var p := states[0];
      assert Everyone(p) == multiset(AllLines());
      TruncateNothing<char>(p.capacity);
      assert p.log[0..] == [] && p.log[0..0] == [];
    } else {
      EveryRun(states, steps, n - 1);
      StepPartitioned(states[n - 1], steps[n - 1]);
      StepInOrder(states[n - 1], steps[n - 1]);
      StepBuffers(states[n - 1], steps[n - 1]);
    }
  }
}
