/** Which configuration survives when the power can fail at any point of any burn. */
module ConfigPowerLoss {
  import opened Util
  import opened ConfigStore

  /** The hypotheses: two separate copies, and neither erased nor half-written flash passes the CRC. */
  ghost predicate TwoCopies<C>(p: Platform<C>) {
    && p.firstCopy != 0 && p.secondCopy != 0 && p.firstCopy != p.secondCopy
    && p.crc(p.blank.config) != p.blank.value
  }

  ghost predicate Torn<C>(p: Platform<C>, c: Container<C>) {
    p.crc(c.config) != c.value
  }

  /** One attempt to burn a configuration. `done` flash operations finished; if the power failed
      during the next one, `torn` is what it left in the copy it was working on. */
  datatype Attempt<+C> = Attempt(config: C, done: nat, torn: Option<Container<C>>)

  ghost predicate Possible<C>(p: Platform<C>, a: Attempt<C>) {
    a.done <= 4 && (a.torn.Some? ==> a.done < 4 && Torn(p, a.torn.value))
  }

  ghost function AfterAttempt<C>(p: Platform<C>, flash: Flash<C>, a: Attempt<C>): Flash<C>
    requires TwoCopies(p) && Possible(p, a)
  {
    var ops := BurnOps(p, a.config);
    var f := DoAll(p, flash, ops[..a.done]);
    if a.torn.Some? then f[ops[a.done].address := a.torn.value] else f
  }

  ghost function AfterAll<C>(p: Platform<C>, flash: Flash<C>, h: seq<Attempt<C>>): Flash<C>
    requires TwoCopies(p) && forall i :: 0 <= i < |h| ==> Possible(p, h[i])
  {
    if h == [] then flash
    else AfterAttempt(p, AfterAll(p, flash, h[..|h| - 1]), h[|h| - 1])
  }

  // ---------- the phases of an attempt ----------

  predicate NotStarted<C>(a: Attempt<C>) {
    a.done == 0 && a.torn == None
  }

  predicate LostInFirst<C>(a: Attempt<C>) {
    !NotStarted(a) && a.done < 2
  }

  /** The first copy is complete, the second one is not: untouched yet, or damaged. */
  predicate LostInSecond<C>(a: Attempt<C>) {
    2 <= a.done < 4
  }

  predicate SecondDamaged<C>(a: Attempt<C>) {
    LostInSecond(a) && !(a.done == 2 && a.torn == None)
  }

  predicate Completed<C>(a: Attempt<C>) {
    a.done == 4
  }

  // ---------- what a boot finds, from the history alone ----------

  /** The configuration last written completely to the first copy, unless that copy was lost since. */
  ghost function FirstHolds<C>(v: C, h: seq<Attempt<C>>): Option<C> {
    if h == [] then Some(v) else
      var a := h[|h| - 1];
      if NotStarted(a) then FirstHolds(v, h[..|h| - 1])
      else if LostInFirst(a) then None
      else Some(a.config)
  }

  ghost function SecondHolds<C>(v: C, h: seq<Attempt<C>>): Option<C> {
    if h == [] then Some(v) else
      var a := h[|h| - 1];
      if Completed(a) then Some(a.config)
      else if SecondDamaged(a) then None
      else SecondHolds(v, h[..|h| - 1])
  }

  ghost predicate Holds<C>(p: Platform<C>, c: Container<C>, o: Option<C>) {
    match o
    case Some(config) => c == Seal(p, config)
    case None => Torn(p, c)
  }

  ghost predicate Matches<C>(p: Platform<C>, flash: Flash<C>, first: Option<C>, second: Option<C>) {
    && p.firstCopy in flash && p.secondCopy in flash
    && Holds(p, flash[p.firstCopy], first) && Holds(p, flash[p.secondCopy], second)
  }

  /** Flash right after a completed burn of `v`. */
  ghost predicate Burned<C>(p: Platform<C>, flash: Flash<C>, v: C) {
    Matches(p, flash, Some(v), Some(v))
  }

  lemma {:induction false} Steps<C>(p: Platform<C>, flash: Flash<C>, config: C, done: nat)
    requires TwoCopies(p) && done <= 4
    ensures |BurnOps(p, config)| == 4
    ensures var image := Seal(p, config);
            var ops := BurnOps(p, config);
            && ops == [Erase(p.firstCopy), Write(p.firstCopy, image), Erase(p.secondCopy), Write(p.secondCopy, image)]
            && DoAll(p, flash, ops[..done]) ==
               if done == 0 then flash
               else if done == 1 then flash[p.firstCopy := p.blank]
               else if done == 2 then flash[p.firstCopy := image]
               else if done == 3 then flash[p.firstCopy := image][p.secondCopy := p.blank]
               else flash[p.firstCopy := image][p.secondCopy := image]
  {
    var ops := BurnOps(p, config);
    if done > 0 {
      Steps(p, flash, config, done - 1);
      DoAllConcat(p, flash, ops[..done - 1], [ops[done - 1]]);
      assert ops[..done] == ops[..done - 1] + [ops[done - 1]];
      assert [ops[done - 1]][1..] == [];
      var before := DoAll(p, flash, ops[..done - 1]);
      assert DoAll(p, before, [ops[done - 1]]) == Do(p, before, ops[done - 1]);
    }
  }

  lemma {:induction false} AttemptMatches<C>(p: Platform<C>, flash: Flash<C>, a: Attempt<C>, first: Option<C>, second: Option<C>)
    requires TwoCopies(p) && Possible(p, a) && Matches(p, flash, first, second)
    ensures Matches(p, AfterAttempt(p, flash, a),
                    if NotStarted(a) then first else if LostInFirst(a) then None else Some(a.config),
                    if Completed(a) then Some(a.config) else if SecondDamaged(a) then None else second)
  {
    hide BurnOps, DoAll, Seal;
    Steps(p, flash, a.config, a.done);
  }

  lemma {:induction false} HistoryMatches<C>(p: Platform<C>, flash: Flash<C>, v: C, h: seq<Attempt<C>>)
    requires TwoCopies(p) && Burned(p, flash, v) && forall i :: 0 <= i < |h| ==> Possible(p, h[i])
    ensures Matches(p, AfterAll(p, flash, h), FirstHolds(v, h), SecondHolds(v, h))
    decreases |h|
  {
    if h != [] {
      var h' := h[..|h| - 1];
      HistoryMatches(p, flash, v, h');
      AttemptMatches(p, AfterAll(p, flash, h'), h[|h| - 1], FirstHolds(v, h'), SecondHolds(v, h'));
    }
  }

  /** What a boot loads from flash: the first copy, else the second, else defaults. */
  ghost function Loaded<C>(v: C, h: seq<Attempt<C>>): Option<C> {
    if FirstHolds(v, h).Some? then FirstHolds(v, h) else SecondHolds(v, h)
  }

  /** The boot-time reader, run on real flash contents after any history, loads exactly that. */
  lemma {:induction false} BootLoads<C>(p: Platform<C>, flash: Flash<C>, v: C, h: seq<Attempt<C>>, ram: Container<C>)
    requires TwoCopies(p) && Burned(p, flash, v) && forall i :: 0 <= i < |h| ==> Possible(p, h[i])
    ensures Present(p, AfterAll(p, flash, h))
    ensures var (state, config) := Boot(p, AfterAll(p, flash, h), ram);
            match Loaded(v, h)
            case Some(c) => state == Ok && config == c
            case None => state in {CrcFailed, BlankChip} && config == p.defaults(p.defaultEngineType)
  {
    HistoryMatches(p, flash, v, h);
  }

  // ---------- exactly when a burn can be undone too far ----------

  /** Some attempt was lost after the first copy, and no later one completed. */
  ghost predicate Exposed<C>(h: seq<Attempt<C>>) {
    exists i :: 0 <= i < |h| && LostInSecond(h[i]) && forall k :: i < k < |h| ==> !Completed(h[k])
  }

  /** The exception: while exposed, an attempt is lost in the first copy. */
  ghost predicate Unlucky<C>(h: seq<Attempt<C>>) {
    exists j :: 0 <= j < |h| && LostInFirst(h[j]) && Exposed(h[..j])
  }

  /** After every attempt a boot loads what was being burned or what was loaded before. */
  ghost predicate AlwaysOldOrNew<C>(v: C, h: seq<Attempt<C>>) {
    forall n :: 0 < n <= |h| ==>
      && Loaded(v, h[..n]).Some?
      && Loaded(v, h[..n]) in {Some(h[n - 1].config), Loaded(v, h[..n - 1])}
  }

  /** No configuration is ever burned twice, so that images can be told apart. */
  ghost predicate AllDifferent<C>(v: C, h: seq<Attempt<C>>) {
    && (forall i :: 0 <= i < |h| ==> h[i].config != v)
    && (forall i, j :: 0 <= i < j < |h| ==> h[i].config != h[j].config)
  }

  lemma {:induction false} ExposedStep<C>(h: seq<Attempt<C>>, a: Attempt<C>)
    ensures Exposed(h + [a]) <==> !Completed(a) && (LostInSecond(a) || Exposed(h))
  {
    var g := h + [a];
    if i :| 0 <= i < |g| && LostInSecond(g[i]) && forall k :: i < k < |g| ==> !Completed(g[k]) {
      if i < |h| {
        assert g[|h|] == a && h[i] == g[i];
        forall k | i < k < |h| ensures !Completed(h[k]) { assert g[k] == h[k]; }
        assert Exposed(h);
      }
    }
    if LostInSecond(a) {
      assert LostInSecond(g[|h|]) && Exposed(g);
    }
    if i :| !Completed(a) && 0 <= i < |h| && LostInSecond(h[i]) && forall k :: i < k < |h| ==> !Completed(h[k]) {
      assert LostInSecond(g[i]) && Exposed(g);
    }
  }

  /** Unexposed, the second copy is what the first one holds or held; exposed and lucky, the
      first copy is valid. */
  lemma {:induction false} LuckyShape<C>(v: C, h: seq<Attempt<C>>)
    requires forall i :: 0 <= i < |h| ==> h[i].done <= 4
    requires forall j :: 0 <= j < |h| && LostInFirst(h[j]) ==> !Exposed(h[..j])
    ensures Exposed(h) ==> FirstHolds(v, h).Some?
    ensures !Exposed(h) ==> SecondHolds(v, h).Some? && Loaded(v, h) == SecondHolds(v, h)
    decreases |h|
  {
    if h != [] {
      var n := |h| - 1;
      forall j | 0 <= j < n && LostInFirst(h[..n][j]) ensures !Exposed(h[..n][..j]) {
        assert h[..n][..j] == h[..j];
      }
      LuckyShape(v, h[..n]);
      ExposedStep(h[..n], h[n]);
      assert h == h[..n] + [h[n]];
    }
  }

  lemma {:induction false} LuckyIsSafe<C>(v: C, h: seq<Attempt<C>>)
    requires !Unlucky(h) && forall i :: 0 <= i < |h| ==> h[i].done <= 4
    ensures AlwaysOldOrNew(v, h)
  {
    forall n | 0 < n <= |h|
      ensures Loaded(v, h[..n]).Some? && Loaded(v, h[..n]) in {Some(h[n - 1].config), Loaded(v, h[..n - 1])}
    {
      LuckyPrefix(h, n);
      LuckyPrefix(h, n - 1);
      LuckyShape(v, h[..n]);
      LuckyShape(v, h[..n - 1]);
      assert h[..n][..n - 1] == h[..n - 1];
    }
  }

  lemma {:induction false} LuckyPrefix<C>(h: seq<Attempt<C>>, n: nat)
    requires !Unlucky(h) && n <= |h|
    ensures forall j :: 0 <= j < |h[..n]| && LostInFirst(h[..n][j]) ==> !Exposed(h[..n][..j])
  {
    forall j | 0 <= j < n && LostInFirst(h[..n][j]) ensures !Exposed(h[..n][..j]) {
      assert h[..n][..j] == h[..j];
    }
  }

  /** While exposed with a valid first copy, the copies differ: the first one is newer. */
  lemma {:induction false} ExposedDiffers<C>(v: C, h: seq<Attempt<C>>)
    requires AllDifferent(v, h) && Exposed(h) && forall i :: 0 <= i < |h| ==> h[i].done <= 4
    requires forall j :: 0 <= j < |h| && LostInFirst(h[j]) ==> !Exposed(h[..j])
    ensures FirstHolds(v, h).Some? && FirstHolds(v, h) != SecondHolds(v, h)
    decreases |h|
  {
    var n := |h| - 1;
    var h', a := h[..n], h[n];
    assert h == h' + [a];
    ExposedStep(h', a);
    forall j | 0 <= j < n && LostInFirst(h'[j]) ensures !Exposed(h'[..j]) {
      assert h'[..j] == h[..j];
    }
    if LostInSecond(a) {
      SecondOlder(v, h');
    } else {
      assert h[..n] == h';
      ExposedDiffers(v, h');
    }
  }

  /** The second copy holds something burned earlier, or nothing. */
  lemma {:induction false} SecondOlder<C>(v: C, h: seq<Attempt<C>>)
    ensures SecondHolds(v, h).Some? ==>
              SecondHolds(v, h).value == v || exists i :: 0 <= i < |h| && h[i].config == SecondHolds(v, h).value
    decreases |h|
  {
    if h != [] {
      SecondOlder(v, h[..|h| - 1]);
      assert h[|h| - 1] in h;
    }
  }

  lemma {:induction false} UnluckyIsUnsafe<C>(v: C, h: seq<Attempt<C>>, j: nat)
    requires AllDifferent(v, h) && forall i :: 0 <= i < |h| ==> h[i].done <= 4
    requires j < |h| && LostInFirst(h[j]) && Exposed(h[..j])
    requires forall k :: 0 <= k < j && LostInFirst(h[k]) ==> !Exposed(h[..k])
    ensures !AlwaysOldOrNew(v, h)
  {
    var h' := h[..j];
    forall k | 0 <= k < j && LostInFirst(h'[k]) ensures !Exposed(h'[..k]) {
      assert h'[..k] == h[..k];
    }
    ExposedDiffers(v, h');
    SecondOlder(v, h');
    assert h[..j + 1][..j] == h' && h[..j + 1][j] == h[j];
    assert Loaded(v, h[..j + 1]) == SecondHolds(v, h');
  }

  lemma {:induction false} FirstUnlucky<C>(h: seq<Attempt<C>>, j: nat) returns (k: nat)
    requires j < |h| && LostInFirst(h[j]) && Exposed(h[..j])
    ensures k <= j && LostInFirst(h[k]) && Exposed(h[..k])
    ensures forall i :: 0 <= i < k && LostInFirst(h[i]) ==> !Exposed(h[..i])
    decreases j
  {
    if i :| 0 <= i < j && LostInFirst(h[i]) && Exposed(h[..i]) {
      k := FirstUnlucky(h, i);
    } else {
      k := j;
    }
  }

  /** Power losses are harmless exactly when no loss during the first copy follows a loss after
      it without a completed burn in between. */
  lemma {:induction false} SafeIffLucky<C>(v: C, h: seq<Attempt<C>>)
    requires AllDifferent(v, h) && forall i :: 0 <= i < |h| ==> h[i].done <= 4
    ensures AlwaysOldOrNew(v, h) <==> !Unlucky(h)
  {
    if Unlucky(h) {
      var j :| 0 <= j < |h| && LostInFirst(h[j]) && Exposed(h[..j]);
      var k := FirstUnlucky(h, j);
      UnluckyIsUnsafe(v, h, k);
    } else {
      LuckyIsSafe(v, h);
    }
  }

  // ---------- the same of real boots, and for all images at once ----------

  /** AlwaysOldOrNew, of what the reader makes of the flash after every attempt. */
  ghost predicate BootsOldOrNew<C>(p: Platform<C>, flash: Flash<C>, ram: Container<C>, h: seq<Attempt<C>>)
    requires TwoCopies(p) && forall i :: 0 <= i < |h| ==> Possible(p, h[i])
  {
    forall n :: 0 < n <= |h| ==> BootsOldOrNewAt(p, flash, ram, h, n)
  }

  ghost predicate BootsOldOrNewAt<C>(p: Platform<C>, flash: Flash<C>, ram: Container<C>, h: seq<Attempt<C>>, n: nat)
    requires TwoCopies(p) && 0 < n <= |h| && forall i :: 0 <= i < |h| ==> Possible(p, h[i])
  {
    && PresentAfter(p, flash, h[..n]) && PresentAfter(p, flash, h[..n - 1])
    && BootState(p, flash, ram, h[..n]) == Ok
    && BootConfig(p, flash, ram, h[..n]) in {h[n - 1].config, BootConfig(p, flash, ram, h[..n - 1])}
  }

  ghost predicate PresentAfter<C>(p: Platform<C>, flash: Flash<C>, h: seq<Attempt<C>>)
    requires TwoCopies(p) && forall i :: 0 <= i < |h| ==> Possible(p, h[i])
  {
    Present(p, AfterAll(p, flash, h))
  }

  ghost function BootState<C>(p: Platform<C>, flash: Flash<C>, ram: Container<C>, h: seq<Attempt<C>>): FlashState
    requires TwoCopies(p) && (forall i :: 0 <= i < |h| ==> Possible(p, h[i])) && PresentAfter(p, flash, h)
  {
    Boot(p, AfterAll(p, flash, h), ram).0
  }

  ghost function BootConfig<C>(p: Platform<C>, flash: Flash<C>, ram: Container<C>, h: seq<Attempt<C>>): C
    requires TwoCopies(p) && (forall i :: 0 <= i < |h| ==> Possible(p, h[i])) && PresentAfter(p, flash, h)
  {
    Boot(p, AfterAll(p, flash, h), ram).1
  }

  lemma {:induction false} BootsAsLoaded<C>(p: Platform<C>, flash: Flash<C>, v: C, h: seq<Attempt<C>>, ram: Container<C>)
    requires TwoCopies(p) && Burned(p, flash, v) && forall i :: 0 <= i < |h| ==> Possible(p, h[i])
    ensures BootsOldOrNew(p, flash, ram, h) <==> AlwaysOldOrNew(v, h)
  {
    forall n | 0 <= n <= |h| ensures AsLoaded(p, flash, v, ram, h[..n]) {
      BootLoads(p, flash, v, h[..n], ram);
    }
    assert Loaded(v, h[..0]) == Some(v);
    hide BootState, BootConfig, PresentAfter, Loaded;
    if BootsOldOrNew(p, flash, ram, h) {
      forall n | 0 < n <= |h|
        ensures Loaded(v, h[..n]).Some? && Loaded(v, h[..n]) in {Some(h[n - 1].config), Loaded(v, h[..n - 1])}
      {
        assert BootsOldOrNewAt(p, flash, ram, h, n);
        assert n - 1 > 0 ==> BootsOldOrNewAt(p, flash, ram, h, n - 1);
        assert AsLoaded(p, flash, v, ram, h[..n]) && AsLoaded(p, flash, v, ram, h[..n - 1]);
      }
    }
    if AlwaysOldOrNew(v, h) {
      forall n | 0 < n <= |h| ensures BootsOldOrNewAt(p, flash, ram, h, n) {
        assert AsLoaded(p, flash, v, ram, h[..n]) && AsLoaded(p, flash, v, ram, h[..n - 1]);
        assert Loaded(v, h[..n - 1]).Some?;
      }
    }
  }

  ghost predicate AsLoaded<C>(p: Platform<C>, flash: Flash<C>, v: C, ram: Container<C>, h: seq<Attempt<C>>)
    requires TwoCopies(p) && forall i :: 0 <= i < |h| ==> Possible(p, h[i])
  {
    && PresentAfter(p, flash, h)
    && (BootState(p, flash, ram, h) == Ok <==> Loaded(v, h).Some?)
    && (Loaded(v, h).Some? ==> BootConfig(p, flash, ram, h) == Loaded(v, h).value)
  }

  /** SafeIffLucky, of real boots. */
  lemma {:induction false} BootsSafeIffLucky<C>(p: Platform<C>, flash: Flash<C>, v: C, h: seq<Attempt<C>>, ram: Container<C>)
    requires TwoCopies(p) && Burned(p, flash, v) && forall i :: 0 <= i < |h| ==> Possible(p, h[i])
    ensures !Unlucky(h) ==> BootsOldOrNew(p, flash, ram, h)
    ensures AllDifferent(v, h) ==> (BootsOldOrNew(p, flash, ram, h) <==> !Unlucky(h))
  {
    BootsAsLoaded(p, flash, v, h, ram);
    if AllDifferent(v, h) {
      SafeIffLucky(v, h);
    } else if !Unlucky(h) {
      LuckyIsSafe(v, h);
    }
  }

  /** The same losses, while other images are burned. */
  ghost predicate Reimaged<C>(h: seq<Attempt<C>>, g: seq<Attempt<C>>) {
    |g| == |h| && forall i :: 0 <= i < |h| ==> g[i] == h[i].(config := g[i].config)
  }

  lemma {:induction false} ReimagedExposed<C>(h: seq<Attempt<C>>, g: seq<Attempt<C>>, n: nat)
    requires Reimaged(h, g) && n <= |h|
    ensures Exposed(h[..n]) ==> Exposed(g[..n])
  {
    var a, b := h[..n], g[..n];
    if i :| 0 <= i < |a| && LostInSecond(a[i]) && forall k :: i < k < |a| ==> !Completed(a[k]) {
      assert LostInSecond(b[i]);
      forall k | i < k < |b| ensures !Completed(b[k]) { assert !Completed(a[k]); }
    }
  }

  lemma {:induction false} ReimagedUnlucky<C>(h: seq<Attempt<C>>, g: seq<Attempt<C>>)
    requires Reimaged(h, g) && Unlucky(h)
    ensures Unlucky(g)
  {
    var j :| 0 <= j < |h| && LostInFirst(h[j]) && Exposed(h[..j]);
    ReimagedExposed(h, g, j);
    assert LostInFirst(g[j]);
  }

  /** Every boot after these losses loads the old or the in-progress image, whatever images were burned. */
  ghost predicate SafeForAllImages(p: Platform<int>, ram: Container<int>, h: seq<Attempt<int>>)
    requires TwoCopies(p) && forall i :: 0 <= i < |h| ==> Possible(p, h[i])
  {
    forall v: int, flash: Flash<int>, g: seq<Attempt<int>> ::
      Burned(p, flash, v) && Reimaged(h, g) && (forall i :: 0 <= i < |g| ==> Possible(p, g[i])) ==>
        BootsOldOrNew(p, flash, ram, g)
  }

  /** A pattern of losses is safe for all images if and only if it is not the unlucky one. */
  lemma {:induction false} SafeForAllImagesIff(p: Platform<int>, ram: Container<int>, h: seq<Attempt<int>>)
    requires TwoCopies(p) && forall i :: 0 <= i < |h| ==> Possible(p, h[i])
    ensures SafeForAllImages(p, ram, h) <==> !Unlucky(h)
  {
    forall v: int, flash: Flash<int>, g: seq<Attempt<int>> | !Unlucky(h) && Burned(p, flash, v) && Reimaged(h, g)
      ensures BootsOldOrNew(p, flash, ram, g)
    {
      if Unlucky(g) {
        ReimagedUnlucky(g, h);
      }
      BootsSafeIffLucky(p, flash, v, g, ram);
    }
    if Unlucky(h) {
      var g := seq(|h|, i requires 0 <= i < |h| => h[i].(config := i + 1));
      var flash := map[p.firstCopy := Seal(p, 0), p.secondCopy := Seal(p, 0)];
      assert Burned(p, flash, 0) && Reimaged(h, g);
      ReimagedUnlucky(h, g);
      BootsSafeIffLucky(p, flash, 0, g, ram);
      assert !BootsOldOrNew(p, flash, ram, g);
    }
  }

  /** The last attempt that wrote anything was lost in the first copy. */
  ghost predicate FirstLostLast<C>(h: seq<Attempt<C>>) {
    exists i :: 0 <= i < |h| && LostInFirst(h[i]) && forall k :: i < k < |h| ==> NotStarted(h[k])
  }

  /** The last attempt that touched the second copy damaged it. */
  ghost predicate SecondLostLast<C>(h: seq<Attempt<C>>) {
    exists i :: 0 <= i < |h| && SecondDamaged(h[i]) && forall k :: i < k < |h| ==> !Completed(h[k])
  }

  /** Defaults are loaded exactly when both copies were lost last. */
  lemma {:induction false} DefaultsIff<C>(v: C, h: seq<Attempt<C>>)
    ensures Loaded(v, h) == None <==> FirstLostLast(h) && SecondLostLast(h)
  {
    FirstNoneIff(v, h);
    SecondNoneIff(v, h);
  }

  lemma {:induction false} FirstLostStep<C>(h: seq<Attempt<C>>, a: Attempt<C>)
    ensures FirstLostLast(h + [a]) <==> LostInFirst(a) || (NotStarted(a) && FirstLostLast(h))
  {
    var g := h + [a];
    if i :| 0 <= i < |g| && LostInFirst(g[i]) && forall k :: i < k < |g| ==> NotStarted(g[k]) {
      if i < |h| {
        assert NotStarted(g[|h|]) && h[i] == g[i];
        forall k | i < k < |h| ensures NotStarted(h[k]) { assert g[k] == h[k]; }
      }
    }
    if LostInFirst(a) {
      assert LostInFirst(g[|h|]);
    }
    if i :| NotStarted(a) && 0 <= i < |h| && LostInFirst(h[i]) && forall k :: i < k < |h| ==> NotStarted(h[k]) {
      assert LostInFirst(g[i]);
    }
  }

  lemma {:induction false} SecondLostStep<C>(h: seq<Attempt<C>>, a: Attempt<C>)
    ensures SecondLostLast(h + [a]) <==> !Completed(a) && (SecondDamaged(a) || SecondLostLast(h))
  {
    var g := h + [a];
    if i :| 0 <= i < |g| && SecondDamaged(g[i]) && forall k :: i < k < |g| ==> !Completed(g[k]) {
      if i < |h| {
        assert !Completed(g[|h|]) && h[i] == g[i];
        forall k | i < k < |h| ensures !Completed(h[k]) { assert g[k] == h[k]; }
      }
    }
    if SecondDamaged(a) {
      assert SecondDamaged(g[|h|]);
    }
    if i :| !Completed(a) && 0 <= i < |h| && SecondDamaged(h[i]) && forall k :: i < k < |h| ==> !Completed(h[k]) {
      assert SecondDamaged(g[i]);
    }
  }

  lemma {:induction false} FirstNoneIff<C>(v: C, h: seq<Attempt<C>>)
    ensures FirstHolds(v, h) == None <==> FirstLostLast(h)
    decreases |h|
  {
    hide FirstLostLast;
    if h == [] {
      EmptyHistory<C>();
    } else {
      var n := |h| - 1;
      FirstNoneIff(v, h[..n]);
      FirstLostStep(h[..n], h[n]);
      assert h == h[..n] + [h[n]];
    }
  }

  lemma {:induction false} SecondNoneIff<C>(v: C, h: seq<Attempt<C>>)
    ensures SecondHolds(v, h) == None <==> SecondLostLast(h)
    decreases |h|
  {
    hide SecondLostLast;
    if h == [] {
      EmptyHistory<C>();
    } else {
      var n := |h| - 1;
      SecondNoneIff(v, h[..n]);
      SecondLostStep(h[..n], h[n]);
      assert h == h[..n] + [h[n]];
    }
  }

  lemma {:induction false} EmptyHistory<C>()
    ensures !FirstLostLast<C>([]) && !SecondLostLast<C>([])
  {
  }

  /** Power lost exactly between the two copies, then again during the first copy: a boot goes
      back to an image that was already replaced, which neither attempt was burning. */
  lemma {:induction false} StaleImage<C>(v: C, w: C, x: C, torn: Container<C>)
    requires v != w && v != x
    ensures var h := [Attempt(w, 2, None), Attempt(x, 0, Some(torn))];
            && Loaded(v, h[..1]) == Some(w)
            && Loaded(v, h) == Some(v)
            && !AlwaysOldOrNew(v, h)
  {
    var h := [Attempt(w, 2, None), Attempt(x, 0, Some(torn))];
    var one := [Attempt(w, 2, None)];
    assert h[..1] == one && h[..2] == h && one[..0] == [];
    assert FirstHolds(v, one) == Some(w) && SecondHolds(v, one) == Some(v);
    assert FirstHolds(v, h) == None && SecondHolds(v, h) == SecondHolds(v, one);
    assert Loaded(v, h[..2]) !in {Some(h[1].config), Loaded(v, h[..1])};
  }
}
