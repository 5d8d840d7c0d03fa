/** flash_main.cpp: the configuration is burned into two flash copies and read back at boot. */
module ConfigStore {

  const FLASH_DATA_VERSION := 20023
  const ALL_ONES := 0xFFFF_FFFF

  /** A stored configuration with the header fields the reader checks. */
  datatype Container<+C> = Container(size: int, version: int, config: C, value: int)

  datatype FlashState = Ok | CrcFailed | IncompatibleVersion | BlankChip

  datatype FlashOp<+C> = Erase(address: nat) | Write(address: nat, image: Container<C>)

  type Flash<C> = map<nat, Container<C>>

  /** What the build and the board fix: the CRC, the container size, what erased flash looks
      like, the factory defaults per engine type, and where the copies live (0: no such copy). */
  datatype Platform<!C> = Platform(
    crc: C -> int,
    containerSize: int,
    blank: Container<C>,
    defaults: int -> C,
    engineType: C -> int,
    defaultEngineType: int,
    firstCopy: nat,
    secondCopy: nat)

  function Seal<C>(p: Platform<C>, config: C): Container<C> {
    Container(p.containerSize, FLASH_DATA_VERSION, config, p.crc(config))
  }

  function Do<C>(p: Platform<C>, flash: Flash<C>, op: FlashOp<C>): Flash<C> {
    match op
    case Erase(address) => flash[address := p.blank]
    case Write(address, image) => flash[address := image]
  }

  function DoAll<C>(p: Platform<C>, flash: Flash<C>, ops: seq<FlashOp<C>>): Flash<C>
    decreases |ops|
  {
    if ops == [] then flash else DoAll(p, Do(p, flash, ops[0]), ops[1..])
  }

  /** The operations of eraseAndFlashCopy, and of a whole burn, in order. */
  function CopyOps<C>(address: nat, image: Container<C>): seq<FlashOp<C>> {
    if address == 0 then [] else [Erase(address), Write(address, image)]
  }

  function BurnOps<C>(p: Platform<C>, config: C): seq<FlashOp<C>> {
    CopyOps(p.firstCopy, Seal(p, config)) + CopyOps(p.secondCopy, Seal(p, config))
  }

  function Check<C>(p: Platform<C>, c: Container<C>): FlashState {
    if p.crc(c.config) != c.value then
      if c.value == ALL_ONES then BlankChip else CrcFailed
    else if c.version != FLASH_DATA_VERSION || c.size != p.containerSize then IncompatibleVersion
    else Ok
  }

  predicate Present<C>(p: Platform<C>, flash: Flash<C>) {
    && (p.firstCopy != 0 ==> p.firstCopy in flash)
    && (p.secondCopy != 0 ==> p.secondCopy in flash)
  }

  /** The configuration a boot ends up with, and whether it came from flash. `ram` is what
      persistentState held before, which survives only when there is nothing to read. */
  function Boot<C>(p: Platform<C>, flash: Flash<C>, ram: Container<C>): (FlashState, C)
    requires Present(p, flash)
  {
    var ram1 := if p.firstCopy == 0 then ram else flash[p.firstCopy];
    var first := if p.firstCopy == 0 then BlankChip else Check(p, ram1);
    var (state, ram2) :=
      if first == Ok || p.secondCopy == 0 then (first, ram1)
      else (Check(p, flash[p.secondCopy]), flash[p.secondCopy]);
    match state
    case Ok => (Ok, ram2.config)
    case IncompatibleVersion => (state, p.defaults(p.engineType(ram2.config)))
    case _ => (state, p.defaults(p.defaultEngineType))
  }

  /** The module's state: RAM image, request flag, and the flash it drives. `ops` records the
      order of the flash operations, which is what an interruption can cut short. */
  class ConfigurationStore<C> {
    const p: Platform<C>
    const burnWithoutFlash: bool
    var persistentState: Container<C>
    var needToWriteConfiguration: bool
    var flash: Flash<C>
    ghost var ops: seq<FlashOp<C>>

    constructor (platform: Platform<C>, ram: Container<C>, contents: Flash<C>, dryRun: bool)
      ensures p == platform && burnWithoutFlash == dryRun
      ensures persistentState == ram && flash == contents && ops == [] && !needToWriteConfiguration
    {
      p, persistentState, flash, ops := platform, ram, contents, [];
      needToWriteConfiguration, burnWithoutFlash := false, dryRun;
    }

    method IntFlashErase(address: nat)
      modifies this`flash, this`ops
      ensures flash == Do(p, old(flash), Erase(address)) && ops == old(ops) + [Erase(address)]
    {
      flash := flash[address := p.blank];
      ops := ops + [Erase(address)];
    }

    method IntFlashWrite(address: nat, image: Container<C>)
      modifies this`flash, this`ops
      ensures flash == Do(p, old(flash), Write(address, image)) && ops == old(ops) + [Write(address, image)]
    {
      flash := flash[address := image];
      ops := ops + [Write(address, image)];
    }

    method EraseAndFlashCopy(address: nat, data: Container<C>)
      modifies this`flash, this`ops
      ensures flash == DoAll(p, old(flash), CopyOps(address, data)) && ops == old(ops) + CopyOps(address, data)
    {
      if address == 0 {
        return;
      }
      IntFlashErase(address);
      IntFlashWrite(address, data);
      ghost var all := CopyOps(address, data);
      ghost var erased := Do(p, old(flash), Erase(address));
      assert all[0] == Erase(address) && all[1..] == [Write(address, data)];
      assert DoAll(p, old(flash), all) == DoAll(p, erased, [Write(address, data)]);
      assert DoAll(p, erased, [Write(address, data)]) == DoAll(p, Do(p, erased, Write(address, data)), []);
    }

    method WriteToFlashNow()
      modifies this
      ensures !needToWriteConfiguration && persistentState.config == old(persistentState.config)
      ensures burnWithoutFlash ==> flash == old(flash) && ops == old(ops)
      ensures !burnWithoutFlash ==>
                && persistentState == Seal(p, old(persistentState.config))
                && ops == old(ops) + BurnOps(p, old(persistentState.config))
                && flash == DoAll(p, old(flash), BurnOps(p, old(persistentState.config)))
    {
      if burnWithoutFlash {
        needToWriteConfiguration := false;
        return;
      }
      persistentState := persistentState.(size := p.containerSize, version := FLASH_DATA_VERSION);
      persistentState := persistentState.(value := p.crc(persistentState.config));
      EraseAndFlashCopy(p.firstCopy, persistentState);
      if p.secondCopy != 0 {
        EraseAndFlashCopy(p.secondCopy, persistentState);
      }
      DoAllConcat(p, old(flash), CopyOps(p.firstCopy, persistentState), CopyOps(p.secondCopy, persistentState));
      needToWriteConfiguration := false;
    }

    method ReadOneConfigurationCopy(address: nat) returns (state: FlashState)
      requires address != 0 ==> address in flash
      modifies this`persistentState
      ensures persistentState == if address == 0 then old(persistentState) else flash[address]
      ensures state == if address == 0 then BlankChip else Check(p, flash[address])
    {
      if address == 0 {
        return BlankChip;
      }
      persistentState := flash[address];
      var flashCrc := p.crc(persistentState.config);
      if flashCrc != persistentState.value {
        return if persistentState.value == ALL_ONES then BlankChip else CrcFailed;
      } else if persistentState.version != FLASH_DATA_VERSION || persistentState.size != p.containerSize {
        return IncompatibleVersion;
      } else {
        return Ok;
      }
    }

    method ReadConfiguration() returns (state: FlashState)
      requires Present(p, flash)
      modifies this`persistentState
      ensures state == Boot(p, flash, old(persistentState)).0
      ensures state == Ok ==> persistentState.config == Boot(p, flash, old(persistentState)).1
      ensures state == IncompatibleVersion ==>
                p.defaults(p.engineType(persistentState.config)) == Boot(p, flash, old(persistentState)).1
    {
      state := ReadOneConfigurationCopy(p.firstCopy);
      if state == Ok {
        return;
      }
      if p.secondCopy == 0 {
        return;
      }
      state := ReadOneConfigurationCopy(p.secondCopy);
    }

    method ReadFromFlash() returns (state: FlashState)
      requires Present(p, flash)
      modifies this`persistentState
      ensures (state, persistentState.config) == Boot(p, flash, old(persistentState))
    {
      state := ReadConfiguration();
      match state {
        case CrcFailed => ResetConfiguration(p.defaultEngineType);
        case BlankChip => ResetConfiguration(p.defaultEngineType);
        case IncompatibleVersion => ResetConfiguration(p.engineType(persistentState.config));
        case Ok =>
      }
    }

    method ResetConfiguration(engineType: int)
      modifies this`persistentState
      ensures persistentState == old(persistentState).(config := p.defaults(engineType))
    {
      persistentState := persistentState.(config := p.defaults(engineType));
    }
  }

  lemma {:induction false} DoAllConcat<C>(p: Platform<C>, flash: Flash<C>, a: seq<FlashOp<C>>, b: seq<FlashOp<C>>)
    ensures DoAll(p, flash, a + b) == DoAll(p, DoAll(p, flash, a), b)
    decreases |a|
  {
    if a == [] {
      assert a + b == b;
    } else {
      DoAllConcat(p, Do(p, flash, a[0]), a[1..], b);
      assert (a + b)[1..] == a[1..] + b;
    }
  }

  // ---------- what a boot makes of any flash content ----------

  /** The stored CRC fits, and the layout is that of this firmware. */
  predicate Good<C>(p: Platform<C>, c: Container<C>) {
    p.crc(c.config) == c.value && c.version == 20023 && c.size == p.containerSize
  }

  predicate FirstGood<C>(p: Platform<C>, flash: Flash<C>)
    requires Present(p, flash)
  {
    p.firstCopy != 0 && Good(p, flash[p.firstCopy])
  }

  predicate SecondGood<C>(p: Platform<C>, flash: Flash<C>)
    requires Present(p, flash)
  {
    p.secondCopy != 0 && Good(p, flash[p.secondCopy])
  }

  /** A boot has a configuration from flash exactly when one of the copies there is good, and then the first
      good one. */
  lemma {:induction false} BootOkIff<C>(p: Platform<C>, flash: Flash<C>, ram: Container<C>)
    requires Present(p, flash)
    ensures Boot(p, flash, ram).0 == Ok <==> FirstGood(p, flash) || SecondGood(p, flash)
    ensures FirstGood(p, flash) ==> Boot(p, flash, ram).1 == flash[p.firstCopy].config
    ensures !FirstGood(p, flash) && SecondGood(p, flash) ==> Boot(p, flash, ram).1 == flash[p.secondCopy].config
  {
  }

  /** The copy that was looked at last, if there is any. */
  function LastLookedAt<C>(p: Platform<C>): nat {
    if p.secondCopy != 0 then p.secondCopy else p.firstCopy
  }

  /** With no good copy the last one decides: a fitting CRC means another layout, whose engine type is kept;
      else the value tells an erased copy from a damaged one. With no copy at all the chip counts as blank. */
  lemma {:induction false} BootDefaultsIff<C>(p: Platform<C>, flash: Flash<C>, ram: Container<C>)
    requires Present(p, flash) && !FirstGood(p, flash) && !SecondGood(p, flash)
    ensures var a := LastLookedAt(p);
            if a == 0 then Boot(p, flash, ram) == (BlankChip, p.defaults(p.defaultEngineType))
            else
              var c := flash[a];
              && (Boot(p, flash, ram).0 == IncompatibleVersion <==> p.crc(c.config) == c.value)
              && (Boot(p, flash, ram).0 == BlankChip <==> p.crc(c.config) != c.value && c.value == 0xFFFF_FFFF)
              && (Boot(p, flash, ram).0 == CrcFailed <==> p.crc(c.config) != c.value && c.value != 0xFFFF_FFFF)
              && Boot(p, flash, ram).1
                 == p.defaults(if p.crc(c.config) == c.value then p.engineType(c.config) else p.defaultEngineType)
  {
  }
}
