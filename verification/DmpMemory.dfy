/** The MPU-6050's DMP memory behind a banked, auto-incrementing window, and the driver that makes it a flat memory. */
module DmpMemory {
  import opened Bytes

  const RA_BANK_SEL: Byte := 0x6D
  const RA_MEM_START_ADDR: Byte := 0x6E
  const RA_INT_ENABLE: Byte := 0x38
  const CHUNK_SIZE := 16

  /** 32 banks of 256 bytes: BANK_SEL selects with five bits. */
  const MEMORY_SIZE := 8192

  // ---- the flat memory ----

  /** The cell `j` bytes behind position `start`. */
  function Cell(start: nat, j: nat): (c: nat)
    ensures c == (start + j) % 8192 && c < MEMORY_SIZE
  {
    (start + j) % MEMORY_SIZE
  }

  lemma SameCell(start: nat, j: nat, start': nat, j': nat, turns: int)
    requires start + j == start' + j' + MEMORY_SIZE * turns
    ensures Cell(start, j) == Cell(start', j')
  {
    assert (start + j) / MEMORY_SIZE == (start' + j') / MEMORY_SIZE + turns;
  }

  /** How often a position has gone around. */
  lemma Turns(start: nat, j: nat, start': nat, j': nat) returns (turns: int)
    requires Cell(start, j) == Cell(start', j')
    ensures start + j == start' + j' + MEMORY_SIZE * turns
  {
    turns := (start + j) / MEMORY_SIZE - (start' + j') / MEMORY_SIZE;
  }

  /** The memory after writing `data` from position `start` on; positions wrap around. */
  function FlatWrite(m: seq<Byte>, start: nat, data: seq<Byte>): (r: seq<Byte>)
    requires |m| == MEMORY_SIZE
    ensures |r| == MEMORY_SIZE
  {
    if data == [] then m
    else
      var last := |data| - 1;
      FlatWrite(m, start, data[..last])[Cell(start, last) := data[last]]
  }

  function FlatRead(m: seq<Byte>, start: nat, n: nat): (r: seq<Byte>)
    requires |m| == MEMORY_SIZE
    ensures |r| == n
  {
    seq(n, i requires 0 <= i < n => m[Cell(start, i)])
  }

  lemma {:induction false} FlatWriteConcat(m: seq<Byte>, start: nat, a: seq<Byte>, b: seq<Byte>)
    requires |m| == MEMORY_SIZE
    ensures FlatWrite(m, start, a + b) == FlatWrite(FlatWrite(m, start, a), start + |a|, b)
    decreases |b|
  {
    if b == [] {
      assert a + b == a;
    } else {
      assert (a + b)[..|a + b| - 1] == a + b[..|b| - 1];
      FlatWriteConcat(m, start, a, b[..|b| - 1]);
    }
  }

  lemma FlatWriteNothing(m: seq<Byte>, start: nat)
    requires |m| == MEMORY_SIZE
    ensures FlatWrite(m, start, []) == m
  {
  }

  lemma FlatWriteNext(m: seq<Byte>, start: nat, data: seq<Byte>, i: nat)
    requires |m| == MEMORY_SIZE && i < |data|
    ensures FlatWrite(m, start, data[..i + 1]) == FlatWrite(m, start, data[..i])[Cell(start, i) := data[i]]
  {
    assert data[..i + 1][..i] == data[..i];
  }

  /** Positions that name the same cell are the same start. */
  lemma {:induction false} FlatWriteCongruent(m: seq<Byte>, start: nat, start': nat, data: seq<Byte>)
    requires |m| == MEMORY_SIZE && Cell(start, 0) == Cell(start', 0)
    ensures FlatWrite(m, start, data) == FlatWrite(m, start', data)
  {
    if data == [] {
    } else {
      var last := |data| - 1;
      FlatWriteCongruent(m, start, start', data[..last]);
      var turns := Turns(start, 0, start', 0);
      SameCell(start, last, start', last, turns);
    }
  }

  /** A cell that is not written keeps its byte. */
  lemma {:induction false} CellKept(m: seq<Byte>, start: nat, data: seq<Byte>, c: nat)
    requires |m| == MEMORY_SIZE && c < MEMORY_SIZE
    requires forall j: nat | j < |data| :: Cell(start, j) != c
    ensures FlatWrite(m, start, data)[c] == m[c]
  {
    if data == [] {
    } else {
      CellKept(m, start, data[..|data| - 1], c);
    }
  }

  /** A cell holds the last byte written to it. */
  lemma {:induction false} CellWritten(m: seq<Byte>, start: nat, data: seq<Byte>, j: nat)
    requires |m| == MEMORY_SIZE && j < |data| <= j + MEMORY_SIZE
    ensures FlatWrite(m, start, data)[Cell(start, j)] == data[j]
  {
    var last := |data| - 1;
    if j < last {
      CellWritten(m, start, data[..last], j);
      if Cell(start, last) == Cell(start, j) {
        var turns := Turns(start, last, start, j);
        assert false;
      }
    }
  }

  ghost predicate Repeats(data: seq<Byte>) {
    forall j: nat | j + 8192 < |data| :: data[j] == data[j + 8192]
  }

  lemma {:induction false} LastWriter(start: nat, data: seq<Byte>, j: nat) returns (k: nat)
    requires j < |data|
    ensures k < |data| <= k + MEMORY_SIZE && Cell(start, k) == Cell(start, j)
    ensures Repeats(data) ==> data[k] == data[j]
    decreases |data| - j
  {
    if |data| <= j + MEMORY_SIZE {
      k := j;
    } else {
      k := LastWriter(start, data, j + MEMORY_SIZE);
      SameCell(start, j + MEMORY_SIZE, start, j, 1);
    }
  }

  /** A block that says the same wherever it wraps onto itself reads back as written. */
  lemma ReadBackIf(m: seq<Byte>, start: nat, data: seq<Byte>)
    requires |m| == MEMORY_SIZE && Repeats(data)
    ensures FlatRead(FlatWrite(m, start, data), start, |data|) == data
  {
    var r := FlatRead(FlatWrite(m, start, data), start, |data|);
    forall j: nat | j < |data|
      ensures r[j] == data[j]
    {
      var k := LastWriter(start, data, j);
      CellWritten(m, start, data, k);
    }
  }

  /** What is read is the same wherever the read wraps onto itself. */
  lemma ReadRepeats(m: seq<Byte>, start: nat, n: nat)
    requires |m| == MEMORY_SIZE
    ensures Repeats(FlatRead(m, start, n))
  {
  }

  /** So a block reads back as written exactly if it repeats where it wraps; any block of at most 8192 bytes does. */
  lemma ReadBackExactly(m: seq<Byte>, start: nat, data: seq<Byte>)
    requires |m| == MEMORY_SIZE
    ensures FlatRead(FlatWrite(m, start, data), start, |data|) == data <==> Repeats(data)
    ensures |data| <= 8192 ==> Repeats(data)
  {
    ReadRepeats(FlatWrite(m, start, data), start, |data|);
    if Repeats(data) {
      ReadBackIf(m, start, data);
    }
  }

  // ---- the device ----

  lemma CellInBank(bank: nat, address: nat, i: nat)
    requires bank < 32 && address + i < 256
    ensures Cell(256 * bank + address, i) == 256 * bank + (address + i) % 256
  {
  }

  datatype Transfer = Transfer(address: nat, length: nat)

  /** A transfer the driver may make: at most a chunk, and within one bank. */
  ghost predicate Aligned(ts: seq<Transfer>) {
    forall i | 0 <= i < |ts| :: 1 <= ts[i].length <= 16 && ts[i].address + ts[i].length <= 256
  }

  class Device {
    var bankSel: Byte
    var startAddr: Byte
    var intEnable: Byte
    var memory: seq<Byte>
    ghost var transfers: seq<Transfer>

    ghost predicate Valid()
      reads this
    {
      |memory| == MEMORY_SIZE
    }

    ghost function Position(): nat
      reads this
    {
      256 * (bankSel % 32) + startAddr
    }

    /** `I2Cdev::writeByte` to one of the registers the driver writes. */
    method WriteByte(reg: Byte, value: Byte)
      requires reg in {RA_BANK_SEL, RA_MEM_START_ADDR, RA_INT_ENABLE}
      modifies this
      ensures bankSel == if reg == 0x6D then value else old(bankSel)
      ensures startAddr == if reg == 0x6E then value else old(startAddr)
      ensures intEnable == if reg == 0x38 then value else old(intEnable)
      ensures memory == old(memory) && transfers == old(transfers)
    {
      if reg == RA_BANK_SEL {
        bankSel := value;
      } else if reg == RA_MEM_START_ADDR {
        startAddr := value;
      } else {
        intEnable := value;
      }
    }

    /** `I2Cdev::writeBytes` to MEM_R_W: the address register counts up, within its eight bits. */
    method WriteMemory(data: seq<Byte>)
      requires Valid() && startAddr + |data| <= 256
      modifies this
      ensures Valid() && memory == FlatWrite(old(memory), old(Position()), data)
      ensures startAddr == (old(startAddr) + |data|) % 256
      ensures bankSel == old(bankSel) && intEnable == old(intEnable)
      ensures transfers == old(transfers) + [Transfer(old(startAddr), |data|)]
    {
      hide FlatWrite, Cell;
      FlatWriteNothing(memory, Position());
      transfers := transfers + [Transfer(startAddr, |data|)];
      for i := 0 to |data|
        invariant Valid() && memory == FlatWrite(old(memory), old(Position()), data[..i])
        invariant startAddr == (old(startAddr) + i) % 256
        invariant bankSel == old(bankSel) && intEnable == old(intEnable)
        invariant transfers == old(transfers) + [Transfer(old(startAddr), |data|)]
      {
        FlatWriteNext(old(memory), old(Position()), data, i);
        CellInBank(bankSel % 32, old(startAddr), i);
        memory := memory[256 * (bankSel % 32) + startAddr := data[i]];
        startAddr := (startAddr + 1) % 256;
      }
      assert data[..|data|] == data;
    }

    /** `I2Cdev::readBytes` from MEM_R_W. */
    method ReadMemory(n: nat) returns (data: seq<Byte>)
      requires Valid() && startAddr + n <= 256
      modifies this
      ensures Valid() && memory == old(memory) && data == FlatRead(memory, old(Position()), n)
      ensures startAddr == (old(startAddr) + n) % 256
      ensures bankSel == old(bankSel) && intEnable == old(intEnable)
      ensures transfers == old(transfers) + [Transfer(old(startAddr), n)]
    {
      transfers := transfers + [Transfer(startAddr, n)];
      data := [];
      for i := 0 to n
        invariant Valid() && memory == old(memory) && data == FlatRead(memory, old(Position()), i)
        invariant startAddr == (old(startAddr) + i) % 256
        invariant bankSel == old(bankSel) && intEnable == old(intEnable)
        invariant transfers == old(transfers) + [Transfer(old(startAddr), n)]
      {
        CellInBank(bankSel % 32, old(startAddr), i);
        data := data + [memory[256 * (bankSel % 32) + startAddr]];
        startAddr := (startAddr + 1) % 256;
      }
    }
  }

  // ---- the driver ----

  /** `setMemoryBank`: five bits of bank, and a flag each for the user bank and for prefetching. */
  method SetMemoryBank(dev: Device, bank: Byte, prefetchEnabled: bool := false, userBank: bool := false)
    modifies dev
    ensures dev.bankSel % 32 == bank % 32 && (dev.bankSel / 32) % 2 == (if userBank then 1 else 0)
    ensures dev.bankSel / 64 == if prefetchEnabled then 1 else 0
    ensures dev.startAddr == old(dev.startAddr) && dev.intEnable == old(dev.intEnable)
    ensures dev.memory == old(dev.memory) && dev.transfers == old(dev.transfers)
  {
    var value := bank % 32;
    if userBank {
      value := value + 0x20;
    }
    if prefetchEnabled {
      value := value + 0x40;
    }
    dev.WriteByte(RA_BANK_SEL, value);
  }

  method SetMemoryStartAddress(dev: Device, address: Byte)
    modifies dev
    ensures dev.startAddr == address
    ensures dev.bankSel == old(dev.bankSel) && dev.intEnable == old(dev.intEnable)
    ensures dev.memory == old(dev.memory) && dev.transfers == old(dev.transfers)
  {
    dev.WriteByte(RA_MEM_START_ADDR, address);
  }

  /** How much the next transfer moves: at most a chunk, what is left, and what is left of the bank. */
  function ChunkSize(i: nat, dataSize: nat, address: Byte): (n: nat)
    requires i < dataSize
    ensures 1 <= n <= 16 && i + n <= dataSize && address + n <= 256
  {
    var n := if i + CHUNK_SIZE > dataSize then dataSize - i else CHUNK_SIZE;
    if n > 256 - address then 256 - address else n
  }

  /** The bank and address the next transfer is to use stand for position `position`. */
  ghost predicate At(bank: Byte, address: Byte, position: nat) {
    (256 * bank + address) % 65536 == position % 65536
  }

  lemma AtStart(bank: Byte, address: Byte)
    ensures At(bank, address, 256 * bank + address)
  {
  }

  /** `address += chunkSize` wraps at 256. */
  function NextAddress(address: Byte, n: nat): Byte {
    (address + n) % 256
  }

  /** `if (address == 0) bank++`, which wraps at 256 too. */
  function NextBank(bank: Byte, address: Byte, n: nat): Byte {
    if NextAddress(address, n) == 0 then (bank + 1) % 256 else bank
  }

  /** Advancing the 8-bit address, and the bank when it wraps, advances the position. */
  lemma NextPosition(bank: Byte, address: Byte, n: nat, position: nat)
    requires address + n <= 256 && n > 0 && At(bank, address, position)
    ensures At(NextBank(bank, address, n), NextAddress(address, n), position + n)
  {
    var p := 256 * bank + address;
    var around := p / 65536 - position / 65536;
    assert p == position + 65536 * around;
    if address + n == 256 && bank == 255 {
      assert p + n == 65536;
      SameAround(0, position + n, around - 1);
    } else {
      SameAround(p + n, position + n, around);
    }
  }

  lemma SameAround(a: nat, b: nat, around: int)
    requires a == b + 65536 * around
    ensures a % 65536 == b % 65536
  {
    assert a / 65536 == b / 65536 + around;
  }

  /** The window of bank and address is the flat position, five bits of bank being enough. */
  lemma WindowCell(bank: Byte, address: Byte, position: nat)
    requires At(bank, address, position)
    ensures Cell(256 * (bank % 32) + address, 0) == Cell(position, 0)
  {
    var p := 256 * bank + address;
    var around := p / 65536 - position / 65536;
    assert p == position + 65536 * around;
    SameCell(256 * (bank % 32) + address, 0, position, 0, 8 * around - bank / 32);
  }

  method Select(dev: Device, bank: Byte, address: Byte)
    modifies dev
    ensures dev.bankSel == bank % 32 && dev.startAddr == address
    ensures dev.intEnable == old(dev.intEnable) && dev.memory == old(dev.memory) && dev.transfers == old(dev.transfers)
  {
    SetMemoryBank(dev, bank);
    SetMemoryStartAddress(dev, address);
  }

  /** `readMemoryBlock`: chunks, banks and the wrapping address come to a flat read. */
  method ReadMemoryBlock(dev: Device, data: array<Byte>, dataSize: nat, bank0: Byte, address0: Byte)
    requires dev.Valid() && dataSize <= data.Length && dataSize < 65536
    modifies dev, data
    ensures dev.Valid() && dev.memory == old(dev.memory) && dev.intEnable == old(dev.intEnable)
    ensures data[..dataSize] == FlatRead(old(dev.memory), 256 * bank0 + address0, dataSize)
    ensures data[dataSize..] == old(data[dataSize..])
    ensures Aligned(old(dev.transfers)) ==> Aligned(dev.transfers)
  {
    ghost var start: nat := 256 * bank0 + address0;
    var bank: Byte, address: Byte := bank0, address0;
    AtStart(bank, address);
    assert FlatRead(dev.memory, start, 0) == [];
    hide At, NextBank, NextAddress, ChunkSize, FlatRead, Cell, Aligned;
    Select(dev, bank, address);
    var i := 0;
    while i < dataSize
      invariant i <= dataSize && (i < dataSize ==> At(bank, address, start + i))
      invariant i < dataSize ==> dev.bankSel == bank % 32 && dev.startAddr == address
      invariant dev.Valid() && dev.memory == old(dev.memory) && dev.intEnable == old(dev.intEnable)
      invariant data[..i] == FlatRead(dev.memory, start, i)
      invariant data[dataSize..] == old(data[dataSize..])
      invariant Aligned(old(dev.transfers)) ==> Aligned(dev.transfers)
      decreases dataSize - i
    {
      var chunkSize := ReadNext(dev, data, i, dataSize, bank, address, start);
      i := i + chunkSize;
      bank, address := NextBank(bank, address, chunkSize), NextAddress(address, chunkSize);
      if i < dataSize {
        Select(dev, bank, address);
      }
    }
  }

  /** The next chunk: its size, and its read into its place. */
  method ReadNext(dev: Device, data: array<Byte>, i: nat, dataSize: nat, bank: Byte, address: Byte, ghost start: nat)
    returns (chunkSize: nat)
    requires dev.Valid() && dev.bankSel == bank % 32 && dev.startAddr == address
    requires i < dataSize <= data.Length && At(bank, address, start + i)
    requires data[..i] == FlatRead(dev.memory, start, i)
    modifies dev, data
    ensures 1 <= chunkSize && i + chunkSize <= dataSize
    ensures At(NextBank(bank, address, chunkSize), NextAddress(address, chunkSize), start + (i + chunkSize))
    ensures dev.Valid() && dev.memory == old(dev.memory) && dev.intEnable == old(dev.intEnable)
    ensures data[..i + chunkSize] == FlatRead(dev.memory, start, i + chunkSize)
    ensures data[dataSize..] == old(data[dataSize..])
    ensures Aligned(old(dev.transfers)) ==> Aligned(dev.transfers)
  {
    hide At, NextBank, NextAddress, ChunkSize, FlatRead, Cell, Aligned;
    chunkSize := ChunkSize(i, dataSize, address);
    WindowCell(bank, address, start + i);
    NextPosition(bank, address, chunkSize, start + i);
    FlatReadContinues(dev.memory, start, i, dev.Position(), chunkSize);
    ReadChunk(dev, data, i, chunkSize);
    assert data[dataSize..] == data[i + chunkSize..][dataSize - (i + chunkSize)..];
    assert old(data[dataSize..]) == old(data[i + chunkSize..])[dataSize - (i + chunkSize)..];
  }

  /** One chunk read into its place. */
  method ReadChunk(dev: Device, data: array<Byte>, i: nat, n: nat)
    requires dev.Valid() && dev.startAddr + n <= 256 && 1 <= n <= CHUNK_SIZE && i + n <= data.Length
    modifies dev, data
    ensures dev.Valid() && dev.memory == old(dev.memory) && dev.intEnable == old(dev.intEnable)
    ensures data[..i + n] == old(data[..i]) + FlatRead(dev.memory, old(dev.Position()), n)
    ensures data[i + n..] == old(data[i + n..])
    ensures Aligned(old(dev.transfers)) ==> Aligned(dev.transfers)
  {
    var chunk := dev.ReadMemory(n);
    forall j | 0 <= j < n {
      data[i + j] := chunk[j];
    }
  }

  lemma FlatReadContinues(m: seq<Byte>, start: nat, i: nat, position: nat, n: nat)
    requires |m| == MEMORY_SIZE && Cell(position, 0) == Cell(start + i, 0)
    ensures FlatRead(m, start, i + n) == FlatRead(m, start, i) + FlatRead(m, position, n)
  {
  }

  /**
   * `writeMemoryBlock`: the memory becomes the flat memory with the block written, whatever the start and the size, and
   * verification succeeds on every chunk.
   */
  method WriteMemoryBlock(dev: Device, data: seq<Byte>, bank0: Byte, address0: Byte, verify: bool, useProgMem: bool)
    returns (ok: bool)
    requires dev.Valid() && |data| < 65536
    modifies dev
    ensures ok
    ensures dev.Valid() && dev.intEnable == old(dev.intEnable)
    ensures dev.memory == FlatWrite(old(dev.memory), 256 * bank0 + address0, data)
    ensures Aligned(old(dev.transfers)) ==> Aligned(dev.transfers)
  {
    ghost var start: nat := 256 * bank0 + address0;
    var bank: Byte, address: Byte := bank0, address0;
    AtStart(bank, address);
    FlatWriteNothing(dev.memory, start);
    hide At, NextBank, NextAddress, ChunkSize, FlatWrite, Cell, Aligned;
    Select(dev, bank, address);
    var i := 0;
    while i < |data|
      invariant i <= |data| && (i < |data| ==> At(bank, address, start + i))
      invariant i < |data| ==> dev.bankSel == bank % 32 && dev.startAddr == address
      invariant dev.Valid() && dev.intEnable == old(dev.intEnable)
      invariant dev.memory == FlatWrite(old(dev.memory), start, data[..i])
      invariant Aligned(old(dev.transfers)) ==> Aligned(dev.transfers)
      decreases |data| - i
    {
      var chunkSize;
      ok, chunkSize := WriteNext(dev, data, i, bank, address, verify, useProgMem, old(dev.memory), start);
      if !ok {
        return;
      }
      i := i + chunkSize;
      bank, address := NextBank(bank, address, chunkSize), NextAddress(address, chunkSize);
      if i < |data| {
        Select(dev, bank, address);
      }
    }
    assert data[..i] == data;
    ok := true;
  }

  /** The next chunk: its size, its copy in the program-memory mode, the write. `m` is the memory before the block. */
  method WriteNext(dev: Device, data: seq<Byte>, i: nat, bank: Byte, address: Byte, verify: bool, useProgMem: bool,
      ghost m: seq<Byte>, ghost start: nat) returns (ok: bool, chunkSize: nat)
    requires dev.Valid() && dev.bankSel == bank % 32 && dev.startAddr == address
    requires |m| == MEMORY_SIZE && i < |data| && At(bank, address, start + i)
    requires dev.memory == FlatWrite(m, start, data[..i])
    modifies dev
    ensures ok && 1 <= chunkSize && i + chunkSize <= |data|
    ensures At(NextBank(bank, address, chunkSize), NextAddress(address, chunkSize), start + (i + chunkSize))
    ensures dev.Valid() && dev.intEnable == old(dev.intEnable)
    ensures dev.memory == FlatWrite(m, start, data[..i + chunkSize])
    ensures Aligned(old(dev.transfers)) ==> Aligned(dev.transfers)
  {
    hide At, NextBank, NextAddress, ChunkSize, FlatWrite, Cell, Aligned;
    chunkSize := ChunkSize(i, |data|, address);
    WindowCell(bank, address, start + i);
    NextPosition(bank, address, chunkSize, start + i);
    FlatWriteContinues(m, start, data, i, dev.Position(), chunkSize);
    var progBuffer := data[i..i + chunkSize];
    if useProgMem {
      progBuffer := CopyFromProgramMemory(data, i, chunkSize);
    }
    ok := WriteChunk(dev, progBuffer, bank, address, verify);
  }

  lemma FlatWriteContinues(m: seq<Byte>, start: nat, data: seq<Byte>, i: nat, position: nat, n: nat)
    requires |m| == MEMORY_SIZE && i + n <= |data| && Cell(position, 0) == Cell(start + i, 0)
    ensures FlatWrite(m, start, data[..i + n]) == FlatWrite(FlatWrite(m, start, data[..i]), position, data[i..i + n])
  {
    assert data[..i + n] == data[..i] + data[i..i + n];
    FlatWriteConcat(m, start, data[..i], data[i..i + n]);
    FlatWriteCongruent(FlatWrite(m, start, data[..i]), start + i, position, data[i..i + n]);
  }

  /** The copy loop of the program-memory mode, into a buffer of one chunk. */
  method CopyFromProgramMemory(data: seq<Byte>, i: nat, chunkSize: nat) returns (chunk: seq<Byte>)
    requires i + chunkSize <= |data| && chunkSize <= CHUNK_SIZE
    ensures chunk == data[i..i + chunkSize]
  {
    var progBuffer := new Byte[CHUNK_SIZE];
    for j := 0 to chunkSize
      invariant progBuffer[..j] == data[i..i + j]
    {
      progBuffer[j] := data[i + j];
      assert progBuffer[..j + 1] == progBuffer[..j] + [data[i + j]];
    }
    chunk := progBuffer[..chunkSize];
  }

  /** One chunk written, and if wanted read back and compared. */
  method WriteChunk(dev: Device, chunk: seq<Byte>, bank: Byte, address: Byte, verify: bool) returns (ok: bool)
    requires dev.Valid() && dev.bankSel == bank % 32 && dev.startAddr == address
    requires 1 <= |chunk| <= CHUNK_SIZE && address + |chunk| <= 256
    modifies dev
    ensures ok
    ensures dev.Valid() && dev.intEnable == old(dev.intEnable)
    ensures dev.memory == FlatWrite(old(dev.memory), old(dev.Position()), chunk)
    ensures Aligned(old(dev.transfers)) ==> Aligned(dev.transfers)
  {
    ReadBackExactly(dev.memory, dev.Position(), chunk);
    dev.WriteMemory(chunk);
    if verify {
      Select(dev, bank, address);
      var verifyBuffer := dev.ReadMemory(|chunk|);
      if chunk != verifyBuffer {
        return false;
      }
    }
    return true;
  }

  /** Writing a block and reading it back through the driver, for every block of at most the memory's size. */
  method WriteThenRead(dev: Device, data: seq<Byte>, bank: Byte, address: Byte) returns (back: array<Byte>)
    requires dev.Valid() && |data| <= 8192
    modifies dev
    ensures dev.Valid() && fresh(back) && back[..] == data
  {
    back := new Byte[|data|];
    var _ := WriteMemoryBlock(dev, data, bank, address, true, false);
    ReadBackExactly(old(dev.memory), 256 * bank + address, data);
    ReadMemoryBlock(dev, back, |data|, bank, address);
    assert back[..|data|] == back[..];
  }

  // ---- the configuration stream ----

  /** A block of the configuration stream; a length of zero marks a special instruction. */
  datatype Block =
    | Write(bank: Byte, offset: Byte, data: seq<Byte>)
    | EnableInterrupts(bank: Byte, offset: Byte)
    | Unknown(bank: Byte, offset: Byte, code: Byte)

  predicate Proper(b: Block) {
    match b
    case Write(_, _, data) => 1 <= |data| <= 255
    case EnableInterrupts(_, _) => true
    case Unknown(_, _, code) => code != 1
  }

  function Serialise(b: Block): seq<Byte>
    requires Proper(b)
  {
    match b
    case Write(bank, offset, data) => [bank, offset, |data|] + data
    case EnableInterrupts(bank, offset) => [bank, offset, 0, 1]
    case Unknown(bank, offset, code) => [bank, offset, 0, code]
  }

  function SerialiseAll(bs: seq<Block>): seq<Byte>
    requires forall i | 0 <= i < |bs| :: Proper(bs[i])
  {
    if bs == [] then [] else Serialise(bs[0]) + SerialiseAll(bs[1..])
  }

  /** The blocks up to and including the first unknown one. */
  function Executed(bs: seq<Block>): seq<Block> {
    if bs == [] then []
    else [bs[0]] + if bs[0].Unknown? then [] else Executed(bs[1..])
  }

  predicate Known(bs: seq<Block>) {
    forall i | 0 <= i < |bs| :: !bs[i].Unknown?
  }

  /** The device memory and interrupt register. */
  datatype Chip = Chip(memory: seq<Byte>, intEnable: Byte)

  function ApplyBlock(c: Chip, b: Block): (r: Chip)
    requires |c.memory| == MEMORY_SIZE
    ensures |r.memory| == MEMORY_SIZE
  {
    match b
    case Write(bank, offset, data) => c.(memory := FlatWrite(c.memory, 256 * bank + offset, data))
    case EnableInterrupts(_, _) => c.(intEnable := 0x32)
    case Unknown(_, _, _) => c
  }

  /** The blocks applied in order. */
  function Apply(c: Chip, bs: seq<Block>): (r: Chip)
    requires |c.memory| == MEMORY_SIZE
    ensures |r.memory| == MEMORY_SIZE
    decreases |bs|
  {
    if bs == [] then c else Apply(ApplyBlock(c, bs[0]), bs[1..])
  }

  /** Where octet `j` of a block goes. */
  function CellOf(b: Block, j: nat): (c: nat)
    requires b.Write?
    ensures c == (256 * b.bank + b.offset + j) % 8192
  {
    Cell(256 * b.bank + b.offset, j)
  }

  /** A memory cell no block writes keeps its byte. */
  lemma {:induction false} ConfiguredKept(chip: Chip, bs: seq<Block>, c: nat)
    requires |chip.memory| == MEMORY_SIZE && c < 8192
    requires forall k, j: nat | 0 <= k < |bs| && bs[k].Write? && j < |bs[k].data| ::
      CellOf(bs[k], j) != c
    ensures Apply(chip, bs).memory[c] == chip.memory[c]
    decreases |bs|
  {
    if bs == [] {
    } else {
      if bs[0].Write? {
        var start := 256 * bs[0].bank + bs[0].offset;
        forall j: nat | j < |bs[0].data| ensures Cell(start, j) != c {
          assert Cell(start, j) == CellOf(bs[0], j);
        }
        CellKept(chip.memory, start, bs[0].data, c);
      }
      ConfiguredKept(ApplyBlock(chip, bs[0]), bs[1..], c);
    }
  }

  /** A memory cell holds the last byte written to it: byte `j` of block `k` goes to 256 * bank + offset + j. */
  lemma {:induction false} ConfiguredCell(chip: Chip, bs: seq<Block>, k: nat, j: nat)
    requires |chip.memory| == MEMORY_SIZE
    requires k < |bs| && bs[k].Write? && j < |bs[k].data|
    requires forall i: nat | j < i < |bs[k].data| ::
      CellOf(bs[k], i) != CellOf(bs[k], j)
    requires forall l, i: nat | k < l < |bs| && bs[l].Write? && i < |bs[l].data| ::
      CellOf(bs[l], i) != CellOf(bs[k], j)
    ensures Apply(chip, bs).memory[CellOf(bs[k], j)] == bs[k].data[j]
    decreases |bs|
  {
    var chip1 := ApplyBlock(chip, bs[0]);
    if k == 0 {
      var start := 256 * bs[0].bank + bs[0].offset;
      forall i: nat | j < i < |bs[0].data| ensures Cell(start, i) != Cell(start, j) {
        assert Cell(start, i) == CellOf(bs[0], i) && Cell(start, j) == CellOf(bs[0], j);
      }
      LastInBlock(chip.memory, start, bs[0].data, j);
      ConfiguredKept(chip1, bs[1..], CellOf(bs[0], j));
    } else {
      ConfiguredCell(chip1, bs[1..], k - 1, j);
    }
  }

  /** Octet `j` of block `k` is the last one that goes to its cell. */
  ghost predicate WrittenLast(bs: seq<Block>, k: nat, j: nat) {
    && k < |bs| && bs[k].Write? && j < |bs[k].data|
    && (forall i: nat | j < i < |bs[k].data| :: CellOf(bs[k], i) != CellOf(bs[k], j))
    && (forall l, i: nat | k < l < |bs| && bs[l].Write? && i < |bs[l].data| :: CellOf(bs[l], i) != CellOf(bs[k], j))
  }

  ghost predicate NeverWritten(bs: seq<Block>, c: nat) {
    c < 8192 && forall k, j: nat | 0 <= k < |bs| && bs[k].Write? && j < |bs[k].data| :: CellOf(bs[k], j) != c
  }

  lemma Configured(chip: Chip, bs: seq<Block>)
    requires |chip.memory| == MEMORY_SIZE
    ensures forall k: nat, j: nat | WrittenLast(bs, k, j) :: Apply(chip, bs).memory[CellOf(bs[k], j)] == bs[k].data[j]
    ensures forall c: nat | NeverWritten(bs, c) :: Apply(chip, bs).memory[c] == chip.memory[c]
  {
    forall k: nat, j: nat | WrittenLast(bs, k, j) ensures Apply(chip, bs).memory[CellOf(bs[k], j)] == bs[k].data[j] {
      ConfiguredCell(chip, bs, k, j);
    }
    forall c: nat | NeverWritten(bs, c) ensures Apply(chip, bs).memory[c] == chip.memory[c] {
      ConfiguredKept(chip, bs, c);
    }
  }

  /** Every cell is one or the other. */
  lemma {:induction false} WrittenOrNot(bs: seq<Block>, c: nat) returns (k: nat, j: nat)
    requires c < 8192
    ensures NeverWritten(bs, c) || (WrittenLast(bs, k, j) && CellOf(bs[k], j) == c)
  {
    k, j := |bs|, 0;
    var found := false;
    while k > 0 && !found
      invariant k <= |bs|
      invariant !found ==> forall l, i: nat | k <= l < |bs| && bs[l].Write? && i < |bs[l].data| :: CellOf(bs[l], i) != c
      invariant found ==> WrittenLast(bs, k, j) && CellOf(bs[k], j) == c
      decreases if found then 0 else k + 1
    {
      k := k - 1;
      if bs[k].Write? {
        found, j := LastOctetAt(bs[k], c);
      }
    }
  }

  lemma LastOctetAt(b: Block, c: nat) returns (found: bool, j: nat)
    requires b.Write?
    ensures found ==> j < |b.data| && CellOf(b, j) == c && forall i: nat | j < i < |b.data| :: CellOf(b, i) != c
    ensures !found ==> forall i: nat | i < |b.data| :: CellOf(b, i) != c
  {
    j, found := |b.data|, false;
    while j > 0 && !found
      invariant j <= |b.data|
      invariant !found ==> forall i: nat | j <= i < |b.data| :: CellOf(b, i) != c
      invariant found ==> j < |b.data| && CellOf(b, j) == c && forall i: nat | j < i < |b.data| :: CellOf(b, i) != c
      decreases if found then 0 else j + 1
    {
      j := j - 1;
      found := CellOf(b, j) == c;
    }
  }

  lemma {:induction false} LastInBlock(m: seq<Byte>, start: nat, data: seq<Byte>, j: nat)
    requires |m| == MEMORY_SIZE && j < |data|
    requires forall i: nat | j < i < |data| :: Cell(start, i) != Cell(start, j)
    ensures FlatWrite(m, start, data)[Cell(start, j)] == data[j]
  {
    hide Cell;
    if j < |data| - 1 {
      LastInBlock(m, start, data[..|data| - 1], j);
    }
  }

  /** The interrupt register is 0x32 if a special code 1 was executed, and untouched otherwise. */
  lemma {:induction false} InterruptsConfigured(chip: Chip, bs: seq<Block>)
    requires |chip.memory| == MEMORY_SIZE
    ensures (exists k :: 0 <= k < |bs| && bs[k].EnableInterrupts?) ==> Apply(chip, bs).intEnable == 0x32
    ensures (forall k | 0 <= k < |bs| :: !bs[k].EnableInterrupts?) ==> Apply(chip, bs).intEnable == chip.intEnable
    decreases |bs|
  {
    if bs == [] {
    } else {
      InterruptsConfigured(ApplyBlock(chip, bs[0]), bs[1..]);
      if k :| 0 < k < |bs| && bs[k].EnableInterrupts? {
        assert bs[1..][k - 1].EnableInterrupts?;
      }
    }
  }

  /** What the interpreter makes of a stream: the blocks it executes, unless it has to read past the end. */
  datatype Config = Complete(blocks: seq<Block>) | PastEnd

  function ParseConfig(s: seq<Byte>): (c: Config) {
    if s == [] then Complete([])
    else if |s| < 3 then PastEnd
    else
      var bank, offset := s[0], s[1];
      var length: nat := s[2];
      if length > 0 then
        if |s| < 3 + length then PastEnd
        else Then(Write(bank, offset, s[3..3 + length]), ParseConfig(s[3 + length..]))
      else if |s| < 4 then PastEnd
      else if s[3] == 1 then Then(EnableInterrupts(bank, offset), ParseConfig(s[4..]))
      else Complete([Unknown(bank, offset, s[3])])
  }

  function Then(b: Block, c: Config): Config {
    match c
    case Complete(bs) => Complete([b] + bs)
    case PastEnd => PastEnd
  }

  /** What the octets at the front of a stream say: bank, offset and length, then the data or a special code. */
  lemma BlockOctets(bank: Byte, offset: Byte, data: seq<Byte>, code: Byte, rest: seq<Byte>)
    ensures 1 <= |data| <= 255 ==>
      (ParseConfig([bank, offset, |data|] + data + rest) == Then(Write(bank, offset, data), ParseConfig(rest)))
    ensures ParseConfig([bank, offset, 0, 1] + rest) == Then(EnableInterrupts(bank, offset), ParseConfig(rest))
    ensures code != 1 ==> ParseConfig([bank, offset, 0, code] + rest) == Complete([Unknown(bank, offset, code)])
    ensures ParseConfig([]) == Complete([]) && ParseConfig([bank]) == ParseConfig([bank, offset]) == PastEnd
    ensures ParseConfig([bank, offset, 0]) == PastEnd
    ensures 1 <= |data| <= 255 ==> ParseConfig([bank, offset, |data|] + data[1..]) == PastEnd
  {
    if 1 <= |data| <= 255 {
      FirstBlock(Write(bank, offset, data), rest);
    }
    FirstBlock(EnableInterrupts(bank, offset), rest);
    if code != 1 {
      FirstBlock(Unknown(bank, offset, code), rest);
    }
  }

  lemma ThenIs(b: Block, bs: seq<Block>)
    ensures Then(b, Complete(bs)) == Complete([b] + bs) && Then(b, PastEnd) == PastEnd
  {
  }

  /** The interpreter executes any serialised blocks, whatever follows the first unknown one. */
  lemma {:induction false} SerialisedIsExecuted(bs: seq<Block>, rest: seq<Byte>)
    requires forall i | 0 <= i < |bs| :: Proper(bs[i])
    requires rest == [] || !Known(bs)
    ensures ParseConfig(SerialiseAll(bs) + rest) == Complete(Executed(bs))
    decreases |bs|
  {
    if bs == [] {
      assert SerialiseAll(bs) + rest == [];
    } else {
      var tail := SerialiseAll(bs[1..]) + rest;
      assert SerialiseAll(bs) + rest == Serialise(bs[0]) + tail;
      FirstBlock(bs[0], tail);
      if !bs[0].Unknown? {
        assert !Known(bs) ==> !Known(bs[1..]);
        SerialisedIsExecuted(bs[1..], rest);
      }
    }
  }

  lemma FirstBlock(b: Block, tail: seq<Byte>)
    requires Proper(b)
    ensures ParseConfig(Serialise(b) + tail) == if b.Unknown? then Complete([b]) else Then(b, ParseConfig(tail))
  {
  }

  /** And it executes nothing else: a stream it can read to the end is such a serialisation. */
  lemma {:induction false} ExecutedIsSerialised(s: seq<Byte>)
    requires ParseConfig(s).Complete?
    ensures var bs := ParseConfig(s).blocks;
      && (forall i | 0 <= i < |bs| :: Proper(bs[i]))
      && (forall i | 0 <= i < |bs| - 1 :: !bs[i].Unknown?)
      && SerialiseAll(bs) <= s && (Known(bs) ==> SerialiseAll(bs) == s)
    decreases |s|
  {
    if s == [] {
    } else {
      var b, n := FirstOf(s);
      var bs := ParseConfig(s).blocks;
      assert s == s[..n] + s[n..];
      if !b.Unknown? {
        ExecutedIsSerialised(s[n..]);
        var rest := ParseConfig(s[n..]).blocks;
        assert bs == [b] + rest && bs[1..] == rest;
        assert Known(bs) ==> Known(rest);
      } else {
        assert bs[1..] == [];
      }
    }
  }

  /** The block at the front of a stream the interpreter can read. */
  lemma FirstOf(s: seq<Byte>) returns (b: Block, n: nat)
    requires s != [] && ParseConfig(s).Complete?
    ensures 4 <= n <= |s| && n == (if s[2] > 0 then 3 + s[2] as nat else 4)
    ensures Proper(b) && Serialise(b) == s[..n]
    ensures b == if s[2] > 0 then Write(s[0], s[1], s[3..n])
                 else if s[3] == 1 then EnableInterrupts(s[0], s[1]) else Unknown(s[0], s[1], s[3])
    ensures if b.Unknown? then ParseConfig(s) == Complete([b])
            else ParseConfig(s[n..]).Complete? && ParseConfig(s) == Complete([b] + ParseConfig(s[n..]).blocks)
  {
    n := if s[2] > 0 then 3 + s[2] as nat else 4;
    b := ParseConfig(s).blocks[0];
  }

  ghost function State(dev: Device): Chip
    reads dev
  {
    Chip(dev.memory, dev.intEnable)
  }

  lemma ApplyFirst(c: Chip, b: Block, bs: seq<Block>)
    requires |c.memory| == MEMORY_SIZE
    ensures Apply(c, [b] + bs) == Apply(ApplyBlock(c, b), bs)
    ensures Known([b] + bs) <==> !b.Unknown? && Known(bs)
  {
  }

  /**
   * `writeDMPConfigurationSet`, for every stream the interpreter can read to its end. In the buffered mode each block
   * is copied into `progBuffer`, which is reallocated only when the size of a pointer is less than the length needed;
   * the array bounds hold because the capacity then always covers the block.
   */
  method WriteDMPConfigurationSet(dev: Device, data: seq<Byte>, useProgMem: bool, pointerSize: nat) returns (ok: bool)
    requires dev.Valid() && |data| < 65536 && pointerSize <= 8
    requires ParseConfig(data).Complete?
    modifies dev
    ensures dev.Valid() && State(dev) == Apply(old(State(dev)), ParseConfig(data).blocks)
    ensures ok <==> forall k | 0 <= k < |ParseConfig(data).blocks| :: !ParseConfig(data).blocks[k].Unknown?
    ensures forall k: nat, j: nat | WrittenLast(ParseConfig(data).blocks, k, j) ::
      dev.memory[CellOf(ParseConfig(data).blocks[k], j)] == ParseConfig(data).blocks[k].data[j]
    ensures forall c: nat | NeverWritten(ParseConfig(data).blocks, c) :: dev.memory[c] == old(dev.memory)[c]
    ensures dev.intEnable
         == if exists k :: 0 <= k < |ParseConfig(data).blocks| && ParseConfig(data).blocks[k].EnableInterrupts?
            then 0x32 else old(dev.intEnable)
    ensures Aligned(old(dev.transfers)) ==> Aligned(dev.transfers)
  {
    hide Aligned, ParseConfig, Apply, Known, WrittenLast, NeverWritten, CellOf;
    Configured(State(dev), ParseConfig(data).blocks);
    InterruptsConfigured(State(dev), ParseConfig(data).blocks);
    KnownIs(ParseConfig(data).blocks);
    var progBuffer := new Byte[8];
    ok := RunBlocks(dev, data, useProgMem, pointerSize, progBuffer);
  }

  /** The block at position `i`, and what it leaves to be done. */
  lemma Turn(c: Chip, data: seq<Byte>, i: nat) returns (b: Block, n: nat)
    requires |c.memory| == MEMORY_SIZE && i < |data| && ParseConfig(data[i..]).Complete?
    ensures 4 <= n && i + n <= |data| && n == (if data[i..][2] > 0 then 3 + data[i..][2] as nat else 4)
    ensures var s := data[i..];
      b == if s[2] > 0 then Write(s[0], s[1], s[3..n])
           else if s[3] == 1 then EnableInterrupts(s[0], s[1]) else Unknown(s[0], s[1], s[3])
    ensures b.Unknown? ==>
      !Known(ParseConfig(data[i..]).blocks) && Apply(c, ParseConfig(data[i..]).blocks) == ApplyBlock(c, b)
    ensures !b.Unknown? ==>
      && ParseConfig(data[i + n..]).Complete?
      && Known(ParseConfig(data[i..]).blocks) == Known(ParseConfig(data[i + n..]).blocks)
      && Apply(c, ParseConfig(data[i..]).blocks) == Apply(ApplyBlock(c, b), ParseConfig(data[i + n..]).blocks)
  {
    ConfigEnd();
    b, n := FirstOf(data[i..]);
    hide ParseConfig, Apply, Known;
    var rest := if b.Unknown? then [] else ParseConfig(data[i..][n..]).blocks;
    ApplyFirst(c, b, rest);
    assert [b] + [] == [b];
    SliceOfSuffix(data, i, n);
  }

  /** The interpreter's loop. */
  method RunBlocks(dev: Device, data: seq<Byte>, useProgMem: bool, pointerSize: nat, buffer: array<Byte>)
    returns (ok: bool)
    requires dev.Valid() && |data| < 65536 && buffer.Length >= pointerSize
    requires ParseConfig(data).Complete?
    modifies dev, buffer
    ensures dev.Valid() && State(dev) == Apply(old(State(dev)), ParseConfig(data).blocks)
    ensures ok <==> Known(ParseConfig(data).blocks)
    ensures Aligned(old(dev.transfers)) ==> Aligned(dev.transfers)
  {
    hide Aligned, ParseConfig, Apply, Known;
    ConfigEnd();
    var progBuffer := buffer;
    var i := 0;
    while i < |data|
      invariant i <= |data| && dev.Valid() && ParseConfig(data[i..]).Complete?
      invariant (progBuffer == buffer || fresh(progBuffer)) && progBuffer.Length >= pointerSize
      invariant Apply(State(dev), ParseConfig(data[i..]).blocks) == Apply(old(State(dev)), ParseConfig(data).blocks)
      invariant Known(ParseConfig(data[i..]).blocks) == Known(ParseConfig(data).blocks)
      invariant Aligned(old(dev.transfers)) ==> Aligned(dev.transfers)
      decreases |data| - i
    {
      ghost var b, n := Turn(State(dev), data, i);
      var success;
      success, i, progBuffer := NextBlock(dev, data, i, useProgMem, pointerSize, progBuffer, b, n);
      if !success {
        return false;
      }
    }
    assert data[i..] == [];
    return true;
  }

  /** One turn of the interpreter's loop; `b` is the block at its front and `n` that block's size. */
  method NextBlock(dev: Device, data: seq<Byte>, i0: nat, useProgMem: bool, pointerSize: nat, progBuffer: array<Byte>,
      ghost b: Block, ghost n: nat) returns (success: bool, i: nat, progBuffer': array<Byte>)
    requires dev.Valid() && i0 + 4 <= i0 + n <= |data| && progBuffer.Length >= pointerSize
    requires var s := data[i0..]; n == (if s[2] > 0 then 3 + s[2] as nat else 4)
    requires var s := data[i0..];
      b == if s[2] > 0 then Write(s[0], s[1], s[3..n])
           else if s[3] == 1 then EnableInterrupts(s[0], s[1]) else Unknown(s[0], s[1], s[3])
    modifies dev, progBuffer
    ensures success <==> !b.Unknown?
    ensures i == i0 + n
    ensures progBuffer' == progBuffer || fresh(progBuffer')
    ensures progBuffer'.Length >= pointerSize
    ensures dev.Valid() && State(dev) == ApplyBlock(old(State(dev)), b)
    ensures b.Write? ==> dev.memory == FlatWrite(old(dev.memory), 256 * b.bank + b.offset, b.data)
    ensures !b.Write? ==> dev.memory == old(dev.memory)
    ensures dev.intEnable == if b.EnableInterrupts? then 0x32 else old(dev.intEnable)
    ensures Aligned(old(dev.transfers)) ==> Aligned(dev.transfers)
  {
    hide Aligned, FlatWrite;
    BlockBytes(data, i0, n);
    progBuffer' := progBuffer;
    i := i0;
    var bank, offset, length := data[i], data[i + 1], data[i + 2];
    i := i + 3;
    if length > 0 {
      progBuffer' := RegularBlock(dev, data, i, bank, offset, length, useProgMem, pointerSize, progBuffer);
      success := true;
      i := i + length;
    } else {
      var special := data[i];
      i := i + 1;
      if special == 0x01 {
        dev.WriteByte(RA_INT_ENABLE, 0x32);
        success := true;
      } else {
        success := false;
      }
    }
  }

  lemma BlockBytes(data: seq<Byte>, i: nat, n: nat)
    requires 3 <= n && i + n <= |data|
    ensures data[i..][3..n] == data[i + 3..i + n]
  {
  }

  lemma KnownIs(bs: seq<Block>)
    ensures Known(bs) <==> forall k | 0 <= k < |bs| :: !bs[k].Unknown?
  {
  }

  lemma ConfigEnd()
    ensures ParseConfig([]) == Complete([]) && Known([])
    ensures forall c: Chip | |c.memory| == MEMORY_SIZE :: Apply(c, []) == c
  {
  }

  /** A block of bytes: buffered in the program-memory mode, then written and verified, which always succeeds. */
  method RegularBlock(dev: Device, data: seq<Byte>, i: nat, bank: Byte, offset: Byte, length: nat, useProgMem: bool,
      pointerSize: nat, progBuffer: array<Byte>) returns (progBuffer': array<Byte>)
    requires dev.Valid() && 0 < length <= 255 && i + length <= |data| && progBuffer.Length >= pointerSize
    modifies dev, progBuffer
    ensures progBuffer' == progBuffer || fresh(progBuffer')
    ensures progBuffer'.Length >= pointerSize
    ensures dev.Valid() && dev.intEnable == old(dev.intEnable)
    ensures dev.memory == FlatWrite(old(dev.memory), 256 * bank + offset, data[i..i + length])
    ensures Aligned(old(dev.transfers)) ==> Aligned(dev.transfers)
  {
    progBuffer' := progBuffer;
    var block := data[i..i + length];
    if useProgMem {
      if pointerSize < length {
        progBuffer' := new Byte[length];
      }
      block := CopyBlock(progBuffer', data, i, length);
    }
    var _ := WriteMemoryBlock(dev, block, bank, offset, true, false);
  }

  method CopyBlock(progBuffer: array<Byte>, data: seq<Byte>, i: nat, length: nat) returns (block: seq<Byte>)
    requires i + length <= |data| && length <= progBuffer.Length
    modifies progBuffer
    ensures block == data[i..i + length]
  {
    for j := 0 to length
      invariant progBuffer[..j] == data[i..i + j]
    {
      progBuffer[j] := data[i + j];
      assert progBuffer[..j + 1] == progBuffer[..j] + [data[i + j]];
    }
    block := progBuffer[..length];
  }
}
