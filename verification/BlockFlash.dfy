/** openblt_flash_h7.cpp: the boot loader collects bytes in a 1024-byte block and programs
    the flash one block at a time. */
module BlockFlash {
  import opened Util

  const FLASH_BASE := 0x0800_0000
  const USER_PROGRAM_OFFSET := 128 * 1024
  const FLASH_INVALID_ADDRESS := 0xFFFF_FFFF
  const FLASH_WRITE_BLOCK_SIZE := 1024

  /** Memory with `bytes` written at `at`. */
  function Splice(memory: seq<byte>, at: nat, bytes: seq<byte>): (r: seq<byte>)
    requires at + |bytes| <= |memory|
    ensures |r| == |memory|
  {
    memory[..at] + bytes + memory[at + |bytes|..]
  }

  /** Where the byte at distance `p` from the start of the first block goes: the end of a block
      always leads to the start of the second one, never to a third. */
  function Target(p: nat): nat {
    if p < FLASH_WRITE_BLOCK_SIZE then p else FLASH_WRITE_BLOCK_SIZE + p % FLASH_WRITE_BLOCK_SIZE
  }

  ghost predicate FitsFrom(start: nat, p: nat, n: nat, size: nat) {
    forall i :: p <= i < p + n ==> start + Target(i) < size
  }

  /** The effect of FlashAddToBlock, byte by byte; `start` is where the first block begins. */
  ghost function AddBytes(memory: seq<byte>, start: nat, p: nat, bytes: seq<byte>): (r: seq<byte>)
    requires FitsFrom(start, p, |bytes|, |memory|)
    ensures |r| == |memory|
    decreases |bytes|
  {
    if bytes == [] then memory
    else AddBytes(memory[start + Target(p) := bytes[0]], start, p + 1, bytes[1..])
  }

  class FlashProgrammer {
    const flash: array<byte>       // the device, from FLASH_BASE on
    const data: array<byte>        // the block
    var base_addr: nat

    ghost predicate Valid()
      reads this
    {
      && flash != data && data.Length == FLASH_WRITE_BLOCK_SIZE
      && flash.Length % FLASH_WRITE_BLOCK_SIZE == 0 && FLASH_BASE + flash.Length < FLASH_INVALID_ADDRESS
      && (base_addr != FLASH_INVALID_ADDRESS ==> IsBlock(base_addr))
    }

    /** A block of the user program. */
    ghost predicate IsBlock(address: nat)
      reads this
    {
      && address % FLASH_WRITE_BLOCK_SIZE == 0
      && FLASH_BASE + USER_PROGRAM_OFFSET <= address
      && address + FLASH_WRITE_BLOCK_SIZE <= FLASH_BASE + flash.Length
    }

    /** Flash as it will be once the pending block is programmed. */
    ghost function View(): (v: seq<byte>)
      reads this, flash, data
      requires Valid()
      ensures |v| == flash.Length
    {
      if base_addr == FLASH_INVALID_ADDRESS then flash[..] else Splice(flash[..], base_addr - FLASH_BASE, data[..])
    }

    ghost function BootLoader(): seq<byte>
      reads this, flash
      requires Valid()
    {
      flash[..Min(USER_PROGRAM_OFFSET, flash.Length)]
    }

    constructor (device: array<byte>)
      requires device.Length % FLASH_WRITE_BLOCK_SIZE == 0 && FLASH_BASE + device.Length < FLASH_INVALID_ADDRESS
      ensures Valid() && fresh(data) && flash == device && View() == device[..] && base_addr == FLASH_INVALID_ADDRESS
    {
      flash := device;
      data := new byte[FLASH_WRITE_BLOCK_SIZE](_ => 0);
      base_addr := FLASH_INVALID_ADDRESS;
    }

    /** Programs the block and reads it back. */
    method FlashWriteBlock() returns (ok: bool)
      requires Valid() && base_addr != FLASH_INVALID_ADDRESS
      modifies flash
      ensures ok && Valid() && View() == old(View()) && flash[..] == old(View())
      ensures BootLoader() == old(BootLoader())
    {
      ghost var at := base_addr - FLASH_BASE;
      SpliceTwice(flash[..], at, data[..]);
      hide Splice, BootLoader;
      ProgramBlock();
      assert flash[at..at + FLASH_WRITE_BLOCK_SIZE] == flash[..][at..at + FLASH_WRITE_BLOCK_SIZE];
      ok := VerifyBlock();
    }

    method ProgramBlock()
      requires Valid() && base_addr != FLASH_INVALID_ADDRESS
      modifies flash
      ensures flash[..] == Splice(old(flash[..]), base_addr - FLASH_BASE, data[..]) && BootLoader() == old(BootLoader())
    {
      var dst := base_addr - FLASH_BASE;
      forall i | 0 <= i < FLASH_WRITE_BLOCK_SIZE {
        flash[dst + i] := data[i];
      }
    }

    /** Reads the block back. */
    method VerifyBlock() returns (ok: bool)
      requires Valid() && base_addr != FLASH_INVALID_ADDRESS
      ensures ok <==> flash[base_addr - FLASH_BASE..base_addr - FLASH_BASE + FLASH_WRITE_BLOCK_SIZE] == data[..]
    {
      var dst := base_addr - FLASH_BASE;
      for i := 0 to FLASH_WRITE_BLOCK_SIZE
        invariant forall j :: 0 <= j < i ==> data[j] == flash[dst + j]
      {
        if data[i] != flash[dst + i] {
          assert flash[dst..dst + FLASH_WRITE_BLOCK_SIZE][i] != data[..][i];
          return false;
        }
      }
      return true;
    }

    method FlashInitBlock(address: nat) returns (ok: bool)
      requires Valid() && (address % FLASH_WRITE_BLOCK_SIZE == 0 ==> IsBlock(address))
      requires base_addr != FLASH_INVALID_ADDRESS ==> flash[..] == View()
      modifies this, data
      ensures ok <==> address % FLASH_WRITE_BLOCK_SIZE == 0
      ensures Valid() && View() == old(View())
      ensures ok ==> base_addr == address
    {
      if address % FLASH_WRITE_BLOCK_SIZE != 0 {
        return false;
      }
      if base_addr != address {
        base_addr := address;
        forall i | 0 <= i < FLASH_WRITE_BLOCK_SIZE {
          data[i] := flash[address - FLASH_BASE + i];
        }
        assert flash[..] == Splice(flash[..], address - FLASH_BASE, data[..]);
      }
      return true;
    }

    method FlashSwitchBlock(address: nat) returns (ok: bool)
      requires Valid() && base_addr != FLASH_INVALID_ADDRESS && IsBlock(address)
      modifies this, flash, data
      ensures ok && Valid() && base_addr == address && View() == old(View())
      ensures BootLoader() == old(BootLoader())
    {
      ok := FlashWriteBlock();
      if !ok {
        return;
      }
      ok := FlashInitBlock(address);
    }

    /** The block that `address` lies in becomes the current one. */
    method SelectBlock(current: nat) returns (ok: bool)
      requires Valid() && IsBlock(current)
      modifies this, flash, data
      ensures ok && Valid() && base_addr == current && View() == old(View())
      ensures BootLoader() == old(BootLoader())
    {
      ok := true;
      if base_addr == FLASH_INVALID_ADDRESS {
        ok := FlashInitBlock(current);
      } else if base_addr != current {
        var _ := FlashSwitchBlock(current);
      }
    }

    method PutByte(at: nat, b: byte)
      requires Valid() && base_addr != FLASH_INVALID_ADDRESS && at < FLASH_WRITE_BLOCK_SIZE
      modifies data
      ensures Valid() && View() == old(View())[base_addr - FLASH_BASE + at := b]
    {
      data[at] := b;
    }

    /** Where the next byte goes after `p` bytes, counted from the start of the first block. */
    ghost predicate Cursor(current: nat, p: nat, dst: nat)
      reads this
    {
      || (base_addr == current && p <= FLASH_WRITE_BLOCK_SIZE && dst == p)
      || (base_addr == current + FLASH_WRITE_BLOCK_SIZE && FLASH_WRITE_BLOCK_SIZE < p && dst == 1 + (p - 1) % FLASH_WRITE_BLOCK_SIZE)
    }

    /** One round of the loop below. */
    method AddByte(current: nat, dst0: nat, b: byte, ghost p: nat) returns (ok: bool, dst: nat)
      requires Valid() && base_addr != FLASH_INVALID_ADDRESS && Cursor(current, p, dst0)
      requires IsBlock(current) && (FLASH_WRITE_BLOCK_SIZE <= p ==> IsBlock(current + FLASH_WRITE_BLOCK_SIZE))
      modifies this, flash, data
      ensures ok && Valid() && base_addr != FLASH_INVALID_ADDRESS && Cursor(current, p + 1, dst)
      ensures BootLoader() == old(BootLoader())
      ensures var at := current - FLASH_BASE + Target(p);
              at < flash.Length && View() == old(View())[at := b]
    {
      dst := dst0;
      ok := true;
      if dst >= FLASH_WRITE_BLOCK_SIZE {
        ok := FlashSwitchBlock(current + FLASH_WRITE_BLOCK_SIZE);
        if !ok {
          return;
        }
        dst := 0;
      }
      assert base_addr + dst == current + Target(p);
      PutByte(dst, b);
      dst := dst + 1;
    }

    /** The copy loop of FlashAddToBlock. */
    method AddAll(current: nat, at: nat, src: seq<byte>, ghost p: nat) returns (ok: bool)
      requires Valid() && IsBlock(current) && base_addr == current && at == p < FLASH_WRITE_BLOCK_SIZE
      requires FLASH_WRITE_BLOCK_SIZE < p + |src| ==> IsBlock(current + FLASH_WRITE_BLOCK_SIZE)
      requires FitsFrom(current - FLASH_BASE, p, |src|, flash.Length)
      modifies this, flash, data
      ensures ok && Valid() && BootLoader() == old(BootLoader())
      ensures View() == AddBytes(old(View()), current - FLASH_BASE, p, src)
    {
      hide Target, View, BootLoader, AddBytes, FitsFrom;
      ghost var start: nat := current - FLASH_BASE;
      var dst, i := at, 0;
      ok := true;
      while i < |src|
        invariant i <= |src| && ok
        invariant Valid() && BootLoader() == old(BootLoader())
        invariant base_addr != FLASH_INVALID_ADDRESS && Cursor(current, p + i, dst)
        invariant FitsFrom(start, p + i, |src[i..]|, flash.Length)
        invariant AddBytes(View(), start, p + i, src[i..]) == AddBytes(old(View()), start, p, src)
      {
        assert src[i..][0] == src[i] && src[i..][1..] == src[i + 1..];
        AddBytesStep(View(), start, p + i, src[i..]);
        ok, dst := AddByte(current, dst, src[i], p + i);
        if !ok {
          return;
        }
        i := i + 1;
      }
      AddNothing(View(), start, p + i);
    }

    /** Any length is taken, but only the blocks at `address` and right behind it are ever used. */
    method FlashAddToBlock(address: nat, src: seq<byte>) returns (ok: bool)
      requires Valid() && 0 < |src|
      requires FLASH_BASE + USER_PROGRAM_OFFSET <= address && address + |src| <= FLASH_BASE + flash.Length
      modifies this, flash, data
      ensures ok && Valid() && BootLoader() == old(BootLoader())
      ensures Fits(address - FLASH_BASE, |src|, flash.Length)
      ensures View() == Added(old(View()), address - FLASH_BASE, src)
    {
      hide View, BootLoader, AddBytes, FitsFrom, Fits, Added;
      var current := address / FLASH_WRITE_BLOCK_SIZE * FLASH_WRITE_BLOCK_SIZE;
      SplitAddress(address, |src|, flash.Length);
      AddedIs(View(), current - FLASH_BASE, address - current, src);
      ok := SelectBlock(current);
      ok := AddAll(current, address - base_addr, src, address - base_addr);
    }

    method FlashWrite(addr: nat, bytes: seq<byte>) returns (ok: bool)
      requires Valid() && 0 < |bytes| && addr + |bytes| <= FLASH_BASE + flash.Length
      modifies this, flash, data
      ensures ok <==> 0x0802_0000 <= addr
      ensures Valid() && BootLoader() == old(BootLoader())
      ensures !ok ==> View() == old(View())
      ensures ok ==>
                && Fits(addr - FLASH_BASE, |bytes|, flash.Length)
                && View() == Added(old(View()), addr - FLASH_BASE, bytes)
    {
      if addr < FLASH_BASE + USER_PROGRAM_OFFSET {
        return false;
      }
      ok := FlashAddToBlock(addr, bytes);
    }

    /** The end of a download: what is still pending is programmed. */
    method FlashWriteChecksum() returns (ok: bool)
      requires Valid()
      modifies flash
      ensures ok && Valid() && flash[..] == View() == old(View()) && BootLoader() == old(BootLoader())
    {
      if base_addr != FLASH_INVALID_ADDRESS {
        ok := FlashWriteBlock();
        return;
      }
      return true;
    }
  }

  lemma {:induction false} AddBytesStep(memory: seq<byte>, start: nat, p: nat, bytes: seq<byte>)
    requires bytes != [] && FitsFrom(start, p, |bytes|, |memory|)
    ensures start + Target(p) < |memory| && FitsFrom(start, p + 1, |bytes| - 1, |memory|)
    ensures AddBytes(memory, start, p, bytes) == AddBytes(memory[start + Target(p) := bytes[0]], start, p + 1, bytes[1..])
  {
  }

  lemma {:induction false} AddNothing(memory: seq<byte>, start: nat, p: nat)
    ensures FitsFrom(start, p, 0, |memory|) && AddBytes(memory, start, p, []) == memory
  {
  }

  /** FlashAddToBlock on device offsets. */
  ghost predicate Fits(at: nat, n: nat, size: nat) {
    FitsFrom(at - at % FLASH_WRITE_BLOCK_SIZE, at % FLASH_WRITE_BLOCK_SIZE, n, size)
  }

  ghost function Added(memory: seq<byte>, at: nat, bytes: seq<byte>): (r: seq<byte>)
    requires Fits(at, |bytes|, |memory|)
    ensures |r| == |memory|
  {
    var offset := at % FLASH_WRITE_BLOCK_SIZE;
    AddBytes(memory, at - offset, offset, bytes)
  }

  lemma {:induction false} AddedIs(memory: seq<byte>, start: nat, offset: nat, bytes: seq<byte>)
    requires Fits(start + offset, |bytes|, |memory|) && start % FLASH_WRITE_BLOCK_SIZE == 0 && offset < FLASH_WRITE_BLOCK_SIZE
    ensures FitsFrom(start, offset, |bytes|, |memory|)
    ensures Added(memory, start + offset, bytes) == AddBytes(memory, start, offset, bytes)
  {
    hide AddBytes, FitsFrom;
    assert (start + offset) % FLASH_WRITE_BLOCK_SIZE == offset;
  }

  lemma {:induction false} SpliceTwice(memory: seq<byte>, at: nat, bytes: seq<byte>)
    requires at + |bytes| <= |memory|
    ensures Splice(Splice(memory, at, bytes), at, bytes) == Splice(memory, at, bytes)
    ensures Splice(memory, at, bytes)[at..at + |bytes|] == bytes
  {
  }

  lemma {:induction false} SplitAddress(address: nat, n: nat, size: nat)
    requires size % FLASH_WRITE_BLOCK_SIZE == 0 && FLASH_BASE <= address && address + n <= FLASH_BASE + size
    ensures var current := address / FLASH_WRITE_BLOCK_SIZE * FLASH_WRITE_BLOCK_SIZE;
            var offset := address % FLASH_WRITE_BLOCK_SIZE;
            && current == address - offset && FLASH_BASE <= current
            && (address - FLASH_BASE) % FLASH_WRITE_BLOCK_SIZE == offset
            && (FLASH_WRITE_BLOCK_SIZE < offset + n ==> current + 2 * FLASH_WRITE_BLOCK_SIZE <= FLASH_BASE + size)
            && (0 < n ==> current + FLASH_WRITE_BLOCK_SIZE <= FLASH_BASE + size)
            && Fits(address - FLASH_BASE, n, size)
  {
  }

  // ---------- when that is a plain memory write ----------

  lemma {:induction false} AddBytesSplices(memory: seq<byte>, start: nat, p: nat, bytes: seq<byte>)
    requires p + |bytes| <= 2 * FLASH_WRITE_BLOCK_SIZE && start + p + |bytes| <= |memory|
    ensures FitsFrom(start, p, |bytes|, |memory|)
    ensures AddBytes(memory, start, p, bytes) == Splice(memory, start + p, bytes)
    decreases |bytes|
  {
    if bytes != [] {
      assert Target(p) == p;
      AddBytesSplices(memory[start + p := bytes[0]], start, p + 1, bytes[1..]);
    }
  }

  lemma {:induction false} AddBytesLeaves(memory: seq<byte>, start: nat, p: nat, bytes: seq<byte>, q: nat)
    requires FitsFrom(start, p, |bytes|, |memory|) && 2 * FLASH_WRITE_BLOCK_SIZE <= q && start + q < |memory|
    ensures AddBytes(memory, start, p, bytes)[start + q] == memory[start + q]
    decreases |bytes|
  {
    if bytes != [] {
      AddBytesLeaves(memory[start + Target(p) := bytes[0]], start, p + 1, bytes[1..], q);
    }
  }

  /** Writes of this length at this offset always do what a plain memory write would. */
  ghost predicate AlwaysPlain(at: nat, n: nat, size: nat)
    requires at + n <= size && Fits(at, n, size)
  {
    forall memory: seq<byte>, bytes: seq<byte> |
      |memory| == size && |bytes| == n :: Added(memory, at, bytes) == Splice(memory, at, bytes)
  }

  lemma {:induction false} AddedIsSplice(memory: seq<byte>, at: nat, bytes: seq<byte>)
    requires at + |bytes| <= |memory| && at % FLASH_WRITE_BLOCK_SIZE + |bytes| <= 2 * FLASH_WRITE_BLOCK_SIZE
    ensures Fits(at, |bytes|, |memory|)
    ensures Added(memory, at, bytes) == Splice(memory, at, bytes)
  {
    var offset := at % FLASH_WRITE_BLOCK_SIZE;
    AddBytesSplices(memory, at - offset, offset, bytes);
  }

  /** A call may touch two blocks and no more: the exact limit on its length. */
  lemma {:induction false} PlainIff(at: nat, n: nat, size: nat)
    requires at + n <= size && Fits(at, n, size)
    ensures AlwaysPlain(at, n, size) <==> at % 1024 + n <= 2048
  {
    var offset := at % FLASH_WRITE_BLOCK_SIZE;
    if offset + n <= 2 * FLASH_WRITE_BLOCK_SIZE {
      forall memory: seq<byte>, bytes: seq<byte> | |memory| == size && |bytes| == n
        ensures Added(memory, at, bytes) == Splice(memory, at, bytes)
      {
        AddedIsSplice(memory, at, bytes);
      }
    } else {
      var memory, bytes := Zeros(size), seq(n, _ => 1);
      AddBytesLeaves(memory, at - offset, offset, bytes, 2 * FLASH_WRITE_BLOCK_SIZE);
      var third := at - offset + 2 * FLASH_WRITE_BLOCK_SIZE;
      assert Added(memory, at, bytes)[third] == 0 != Splice(memory, at, bytes)[third];
    }
  }

  lemma {:induction false} AddBytesKeeps(memory: seq<byte>, start: nat, p: nat, bytes: seq<byte>, q: nat)
    requires FitsFrom(start, p, |bytes|, |memory|) && start + q < |memory|
    requires forall r :: p <= r < p + |bytes| ==> Target(r) != q
    ensures AddBytes(memory, start, p, bytes)[start + q] == memory[start + q]
    decreases |bytes|
  {
    if bytes != [] {
      assert Target(p) != q;
      AddBytesStep(memory, start, p, bytes);
      hide AddBytes, Target;
      AddBytesKeeps(memory[start + Target(p) := bytes[0]], start, p + 1, bytes[1..], q);
    }
  }

  lemma {:induction false} AddBytesPuts(memory: seq<byte>, start: nat, p: nat, bytes: seq<byte>, k: nat)
    requires FitsFrom(start, p, |bytes|, |memory|) && k < |bytes|
    requires forall r :: p + k < r < p + |bytes| ==> Target(r) != Target(p + k)
    ensures start + Target(p + k) < |memory| && AddBytes(memory, start, p, bytes)[start + Target(p + k)] == bytes[k]
    decreases |bytes|
  {
    AddBytesStep(memory, start, p, bytes);
    hide AddBytes, Target;
    var memory' := memory[start + Target(p) := bytes[0]];
    if k == 0 {
      AddBytesKeeps(memory', start, p + 1, bytes[1..], Target(p));
    } else {
      AddBytesPuts(memory', start, p + 1, bytes[1..], k - 1);
    }
  }

  lemma {:induction false} Overwrites(p: nat, r: nat)
    requires p < r
    ensures Target(p) == Target(r) <==> 1024 <= p && (r - p) % 1024 == 0
  {
    if 1024 <= p && Target(p) == Target(r) {
      assert p % 1024 == r % 1024;
    }
  }

  /** What a call of any length leaves: the bytes of the first block where they belong, and its last 1024 bytes
      in the second block, also those that belong into later ones. All others are overwritten by these. */
  lemma {:induction false} ByteGoes(memory: seq<byte>, at: nat, bytes: seq<byte>, k: nat)
    requires Fits(at, |bytes|, |memory|) && k < |bytes|
    requires at % 1024 + k < 1024 || |bytes| <= k + 1024
    ensures var p := at % 1024 + k;
            var to := at - at % 1024 + if p < 2048 then p else 1024 + p % 1024;
            to < |memory| && Added(memory, at, bytes)[to] == bytes[k]
  {
    var p := at % 1024;
    forall r | p + k < r < p + |bytes| ensures Target(r) != Target(p + k) {
      Overwrites(p + k, r);
    }
    AddBytesPuts(memory, at - p, p, bytes, k);
    hide AddBytes;
  }

  // ---------- a whole download ----------

  datatype Chunk = Chunk(address: nat, bytes: seq<byte>)

  /** What the host may send in one call. */
  predicate Acceptable(c: Chunk, size: nat) {
    && 0 < |c.bytes| <= FLASH_WRITE_BLOCK_SIZE
    && FLASH_BASE + USER_PROGRAM_OFFSET <= c.address && c.address + |c.bytes| <= FLASH_BASE + size
  }

  predicate AllAcceptable(chunks: seq<Chunk>, size: nat) {
    forall i :: 0 <= i < |chunks| ==> Acceptable(chunks[i], size)
  }

  /** The simple memory: every chunk goes straight to its place. */
  function Programmed(memory: seq<byte>, chunks: seq<Chunk>): (r: seq<byte>)
    requires AllAcceptable(chunks, |memory|)
    ensures |r| == |memory|
    decreases |chunks|
  {
    if chunks == [] then memory
    else Programmed(Splice(memory, chunks[0].address - FLASH_BASE, chunks[0].bytes), chunks[1..])
  }

  lemma {:induction false} ProgrammedStep(memory: seq<byte>, chunks: seq<Chunk>)
    requires AllAcceptable(chunks, |memory|) && chunks != []
    ensures Acceptable(chunks[0], |memory|) && AllAcceptable(chunks[1..], |memory|)
    ensures Programmed(memory, chunks)
         == Programmed(Splice(memory, chunks[0].address - FLASH_BASE, chunks[0].bytes), chunks[1..])
  {
  }

  lemma {:induction false} ProgrammedNothing(memory: seq<byte>, chunks: seq<Chunk>)
    requires chunks == []
    ensures AllAcceptable(chunks, |memory|) && Programmed(memory, chunks) == memory
  {
  }

  /** Any sequence of chunks, in any order and overlapping at will: afterwards the device holds
      what the simple memory holds, and the boot loader is untouched. */
  method Download(f: FlashProgrammer, chunks: seq<Chunk>)
    requires f.Valid() && AllAcceptable(chunks, f.flash.Length)
    modifies f, f.flash, f.data
    ensures f.Valid() && f.flash[..] == Programmed(old(f.View()), chunks)
    ensures f.BootLoader() == old(f.BootLoader())
  {
    hide Splice, Acceptable, AllAcceptable, Programmed;
    for i := 0 to |chunks|
      invariant f.Valid() && f.BootLoader() == old(f.BootLoader())
      invariant AllAcceptable(chunks[i..], f.flash.Length)
      invariant Programmed(f.View(), chunks[i..]) == Programmed(old(f.View()), chunks)
    {
      assert chunks[i..][0] == chunks[i] && chunks[i..][1..] == chunks[i + 1..];
      ProgrammedStep(f.View(), chunks[i..]);
      DownloadChunk(f, chunks[i]);
    }
    ProgrammedNothing(f.View(), chunks[|chunks|..]);
    var _ := f.FlashWriteChecksum();
  }

  method DownloadChunk(f: FlashProgrammer, c: Chunk)
    requires f.Valid() && Acceptable(c, f.flash.Length)
    modifies f, f.flash, f.data
    ensures f.Valid() && f.View() == Splice(old(f.View()), c.address - FLASH_BASE, c.bytes)
    ensures f.BootLoader() == old(f.BootLoader())
  {
    hide Splice, Added, Fits;
    ghost var before := f.View();
    var _ := f.FlashWrite(c.address, c.bytes);
    AddedIsSplice(before, c.address - FLASH_BASE, c.bytes);
  }
}
