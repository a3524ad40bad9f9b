/**
 The circular byte log kept in the data EEPROM behind one reserved byte.
 `RingWrite` is what a put means on the byte map; `Put` is the put on the chip.
 */
module EepromLog {
  import opened FlashChip

  /** EEPROM_START and EEPROM_END as offsets, and EEPROM_SIZE. */
  const START: nat := 1
  const END: nat := 0xFFF
  const SIZE: nat := 4095
  /** The modulus of the 32-bit put counter. */
  const WRAP: nat := 0x1_0000_0000

  datatype Log = Log(chip: Chip, idx: nat) {
    ghost predicate Valid() {
      chip.Valid() && idx < WRAP
    }
  }

  /** The address of the put number n. */
  function Slot(n: nat): (a: nat)
    ensures START <= a <= END
  {
    START + n % WRAP % SIZE
  }

  /** eeprom_putt. The status of the program operation is reported for reasoning
      only: the driver drops it. */
  function Put(l: Log, hw: Hardware, b: bv8): (r: (Status, Log))
    requires l.Valid()
    ensures r.1.Valid()
  {
    var (status, c) := UnlockedProgram(l.chip, hw, START + l.idx % SIZE, b);
    (status, Log(c, (l.idx + 1) % WRAP))
  }

  /** Unlock, program, lock. */
  function UnlockedProgram(c: Chip, hw: Hardware, a: nat, b: bv8): (r: (Status, Chip))
    requires c.Valid() && a < DATA_SIZE
    ensures r.1.Valid()
  {
    var (status, c') := ProgramByte(c.(locked := false), hw, a, b);
    (status, c'.(locked := true))
  }

  lemma UnlockedProgramRefines(c: Chip, hw: Hardware, a: nat, b: bv8)
    requires c.Valid() && a <= END
    ensures var (status, r) := UnlockedProgram(c, hw, a, b);
            && (status == Complete ==> r.mem == c.mem[a := b])
            && (forall i :: END < i < DATA_SIZE ==> r.mem[i] == c.mem[i])
            && r.locked
  {
    hide ProgramByte;
    ProgramByteRefines(c.(locked := false), hw, a, b);
  }

  /** ls lists the log before, between and after the puts of these bytes. */
  ghost predicate Puts(ls: seq<Log>, hw: Hardware, bytes: seq<bv8>) {
    && |ls| == |bytes| + 1
    && (forall i :: 0 <= i < |ls| ==> ls[i].Valid())
    && (forall i :: 0 <= i < |bytes| ==> PutAt(ls, hw, bytes, i))
  }

  ghost predicate PutAt(ls: seq<Log>, hw: Hardware, bytes: seq<bv8>, i: nat)
    requires |ls| == |bytes| + 1 && i < |bytes|
  {
    PutStep(ls[i], hw, bytes[i], ls[i + 1])
  }

  ghost predicate PutStep(l: Log, hw: Hardware, b: bv8, r: Log) {
    l.Valid() && Put(l, hw, b).1 == r
  }

  ghost predicate Completed(l: Log, hw: Hardware, b: bv8) {
    l.Valid() && Put(l, hw, b).0 == Complete
  }

  /** Every put of the run completes. */
  ghost predicate AllComplete(ls: seq<Log>, hw: Hardware, bytes: seq<bv8>) {
    Puts(ls, hw, bytes) && forall i {:trigger PutAt(ls, hw, bytes, i)} ::
      0 <= i < |bytes| ==> Completed(ls[i], hw, bytes[i])
  }

  /** The run on the byte map, the put number n first. */
  function RingWrite(mem: seq<bv8>, n: nat, bytes: seq<bv8>): (r: seq<bv8>)
    requires |mem| == DATA_SIZE
    ensures |r| == DATA_SIZE
    decreases bytes
  {
    if bytes == [] then mem
    else RingWrite(mem, n, bytes[..|bytes| - 1])[Slot(n + |bytes| - 1) := bytes[|bytes| - 1]]
  }

  /** One put of the log is one write on the ring. */
  lemma PutOnRing(l: Log, hw: Hardware, n: nat, b: bv8, r: Log)
    requires PutStep(l, hw, b, r) && l.idx == n % WRAP
    ensures r.idx == (n + 1) % WRAP
    ensures Completed(l, hw, b) ==> r.chip.mem == l.chip.mem[Slot(n) := b]
    ensures forall i :: END < i < DATA_SIZE ==> r.chip.mem[i] == l.chip.mem[i]
    ensures r.chip.locked
  {
    hide UnlockedProgram;
    UnlockedProgramRefines(l.chip, hw, START + l.idx % SIZE, b);
  }

  /** ls is a run of the plain ring: each step writes one byte of the map. */
  ghost predicate RingRun(ls: seq<Log>, bytes: seq<bv8>) {
    && |ls| == |bytes| + 1
    && (forall i :: 0 <= i < |ls| ==> ls[i].Valid())
    && (forall i :: 0 <= i < |bytes| ==> RingStepAt(ls, bytes, i))
  }

  ghost predicate RingStepAt(ls: seq<Log>, bytes: seq<bv8>, i: nat)
    requires |ls| == |bytes| + 1 && i < |bytes|
  {
    && ls[i].Valid()
    && ls[i + 1].idx == (ls[i].idx + 1) % WRAP
    && ls[i + 1].chip.mem == ls[i].chip.mem[START + ls[i].idx % SIZE := bytes[i]]
  }

  lemma PutAtIsRingStep(ls: seq<Log>, hw: Hardware, bytes: seq<bv8>, i: nat)
    requires AllComplete(ls, hw, bytes) && i < |bytes|
    ensures RingStepAt(ls, bytes, i)
  {
    hide Put;
    assert PutAt(ls, hw, bytes, i);
    PutOnRing(ls[i], hw, ls[i].idx, bytes[i], ls[i + 1]);
  }

  /** Completed puts on the chip are a run of the plain ring. */
  lemma PutsAreRingRun(ls: seq<Log>, hw: Hardware, bytes: seq<bv8>)
    requires AllComplete(ls, hw, bytes)
    ensures RingRun(ls, bytes)
  {
    forall i | 0 <= i < |bytes|
      ensures RingStepAt(ls, bytes, i)
    {
      PutAtIsRingStep(ls, hw, bytes, i);
    }
  }

  lemma {:induction false} RunCounts(ls: seq<Log>, n: nat, bytes: seq<bv8>, k: nat)
    requires RingRun(ls, bytes) && ls[0].idx == n % WRAP && k <= |bytes|
    ensures ls[k].idx == (n + k) % WRAP
    decreases k
  {
    if k > 0 {
      RunCounts(ls, n, bytes, k - 1);
      assert RingStepAt(ls, bytes, k - 1);
      NextIndex(ls[k - 1].idx, n + (k - 1));
    }
  }

  lemma NextIndex(idx: nat, n: nat)
    requires idx == n % WRAP
    ensures (idx + 1) % WRAP == (n + 1) % WRAP && START + idx % SIZE == Slot(n)
  {
  }

  lemma RingWriteStep(mem: seq<bv8>, n: nat, bytes: seq<bv8>, k: nat)
    requires |mem| == DATA_SIZE && 0 < k <= |bytes|
    ensures RingWrite(mem, n, bytes[..k]) == RingWrite(mem, n, bytes[..k - 1])[Slot(n + (k - 1)) := bytes[k - 1]]
  {
    assert bytes[..k][..k - 1] == bytes[..k - 1];
  }

  /** After any number k of steps the memory is what RingWrite says. */
  lemma {:induction false} RunWritesRing(ls: seq<Log>, n: nat, bytes: seq<bv8>, k: nat)
    requires RingRun(ls, bytes) && ls[0].idx == n % WRAP && k <= |bytes|
    ensures ls[k].chip.mem == RingWrite(ls[0].chip.mem, n, bytes[..k])
    decreases k
  {
    if k == 0 {
      assert bytes[..0] == [];
    } else {
      RunWritesRing(ls, n, bytes, k - 1);
      RunCounts(ls, n, bytes, k - 1);
      assert RingStepAt(ls, bytes, k - 1);
      NextIndex(ls[k - 1].idx, n + (k - 1));
      RingWriteStep(ls[0].chip.mem, n, bytes, k);
    }
  }

  /** On the chip the log refines the ring of bytes, over any number of puts. */
  lemma LogRefinesRing(ls: seq<Log>, hw: Hardware, n: nat, bytes: seq<bv8>)
    requires AllComplete(ls, hw, bytes) && ls[0].idx == n % WRAP
    ensures ls[|bytes|].idx == (n + |bytes|) % WRAP
    ensures ls[|bytes|].chip.mem == RingWrite(ls[0].chip.mem, n, bytes)
  {
    PutsAreRingRun(ls, hw, bytes);
    RunCounts(ls, n, bytes, |bytes|);
    RunWritesRing(ls, n, bytes, |bytes|);
    assert bytes[..|bytes|] == bytes;
  }

  lemma DistinctSlots(i: nat, j: nat)
    requires i < j < i + SIZE
    ensures i % SIZE != j % SIZE
  {
  }

  lemma {:induction false} RingHolds(mem: seq<bv8>, n: nat, bytes: seq<bv8>, j: nat)
    requires |mem| == DATA_SIZE && n + |bytes| <= WRAP && j < |bytes| <= j + SIZE
    ensures RingWrite(mem, n, bytes)[Slot(n + j)] == bytes[j]
    decreases bytes
  {
    var before, last := bytes[..|bytes| - 1], |bytes| - 1;
    if j < last {
      RingHolds(mem, n, before, j);
      SlotInFirstRound(n + j);
      SlotInFirstRound(n + last);
      DistinctSlots(n + j, n + last);
    }
  }

  /** Before the counter wraps. */
  lemma SlotInFirstRound(n: nat)
    requires n < WRAP
    ensures Slot(n) == START + n % SIZE
  {
  }

  lemma {:induction false} RingKeepsOutside(mem: seq<bv8>, n: nat, bytes: seq<bv8>, a: nat)
    requires |mem| == DATA_SIZE && a < DATA_SIZE && !(START <= a <= END)
    ensures RingWrite(mem, n, bytes)[a] == mem[a]
    decreases bytes
  {
    if bytes != [] {
      RingKeepsOutside(mem, n, bytes[..|bytes| - 1], a);
    }
  }

  /** While the counter does not wrap, the last 4095 bytes are in their slots and
      everything outside the ring keeps its value. */
  lemma RingHoldsLast(mem: seq<bv8>, n: nat, bytes: seq<bv8>)
    requires |mem| == DATA_SIZE && n + |bytes| <= WRAP
    ensures forall j :: 0 <= j < |bytes| && |bytes| - SIZE <= j ==>
              RingWrite(mem, n, bytes)[START + (n + j) % SIZE] == bytes[j]
    ensures forall a :: 0 <= a < DATA_SIZE && !(START <= a <= END) ==> RingWrite(mem, n, bytes)[a] == mem[a]
  {
    forall j | 0 <= j < |bytes| && |bytes| - SIZE <= j
      ensures RingWrite(mem, n, bytes)[START + (n + j) % SIZE] == bytes[j]
    {
      RingHolds(mem, n, bytes, j);
      SlotInFirstRound(n + j);
    }
    forall a | 0 <= a < DATA_SIZE && !(START <= a <= END)
      ensures RingWrite(mem, n, bytes)[a] == mem[a]
    {
      RingKeepsOutside(mem, n, bytes, a);
    }
  }

  /** The ring log: from a fresh counter, after any k <= 2^32 puts that complete,
      the last min(k, 4095) bytes sit at EEPROM_START + (j mod 4095), and the
      reserved byte and everything beyond EEPROM_END keep their value. */
  lemma RingLog(ls: seq<Log>, hw: Hardware, bytes: seq<bv8>)
    requires AllComplete(ls, hw, bytes) && ls[0].idx == 0 && |bytes| <= WRAP
    ensures var k, mem := |bytes|, ls[|bytes|].chip.mem;
            && (forall j :: 0 <= j < k && k - SIZE <= j ==> mem[START + j % SIZE] == bytes[j])
            && (forall a :: 0 <= a < DATA_SIZE && !(START <= a <= END) ==> mem[a] == ls[0].chip.mem[a])
  {
    LogRefinesRing(ls, hw, 0, bytes);
    RingHoldsLast(ls[0].chip.mem, 0, bytes);
    assert forall j {:trigger bytes[j]} :: 0 <= j < |bytes| ==> (0 + j) % SIZE == j % SIZE;
  }

  /** Whether or not the puts complete: nothing beyond EEPROM_END changes, and the
      chip is locked again after each put. */
  lemma {:induction false} PutsStayInside(ls: seq<Log>, hw: Hardware, bytes: seq<bv8>, k: nat)
    requires Puts(ls, hw, bytes) && k <= |bytes|
    ensures forall a :: END < a < DATA_SIZE ==> ls[k].chip.mem[a] == ls[0].chip.mem[a]
    ensures k > 0 ==> ls[k].chip.locked
    decreases k
  {
    if k > 0 {
      PutsStayInside(ls, hw, bytes, k - 1);
      assert PutAt(ls, hw, bytes, k - 1);
      PutOnRing(ls[k - 1], hw, ls[k - 1].idx, bytes[k - 1], ls[k]);
    }
  }

  /** The reserved byte survives every put at an address, on every chip and hardware
      and completed or not, exactly when the address is outside its word. */
  lemma ReservedByteSafeExactly(a: nat)
    requires START <= a <= END
    ensures (forall c: Chip, hw: Hardware, b: bv8 :: c.Valid() ==> UnlockedProgram(c, hw, a, b).1.mem[0] == c.mem[0])
            <==> a >= 4
  {
    if a >= 4 {
      forall c: Chip, hw: Hardware, b: bv8 | c.Valid()
        ensures UnlockedProgram(c, hw, a, b).1.mem[0] == c.mem[0]
      {
        ProgramByteRefines(c.(locked := false), hw, a, b);
      }
    } else {
      var c := Chip(seq(DATA_SIZE, _ => 1), true, false, 0, NoFault, 0);
      var hw: Hardware := (_: nat) => Outcome(0, Programming, [0, 0, 0, 0]);
      FailedByteLosesWord(c, hw, a);
      assert UnlockedProgram(c, hw, a, 1).1.mem[0] == 0 && c.mem[0] == 1;
    }
  }

  lemma FailedByteLosesWord(c: Chip, hw: Hardware, a: nat)
    requires c.Valid() && c.busy == 0 && c.fault == NoFault && a < 4
    requires hw(c.stores) == Outcome(0, Programming, [0, 0, 0, 0])
    ensures UnlockedProgram(c, hw, a, 1).1.mem[0] == 0
  {
    var c1 := StoreByte(c.(locked := false), hw, a, 1);
    assert Aligned(a) == 0;
    assert c1.mem[0] == 0;
  }

  /** A chip with an error flag up takes no more bytes, and the flag stays. */
  lemma FaultyChipKeepsMemory(c: Chip, hw: Hardware, a: nat, b: bv8)
    requires c.Valid() && a < DATA_SIZE && c.fault != NoFault
    ensures var (status, r) := UnlockedProgram(c, hw, a, b);
            status != Complete && r.mem == c.mem && r.fault == c.fault
  {
  }

  /** Once an error flag is up the log has ended, unnoticed because the status is
      dropped: no later put completes or changes the memory. */
  lemma {:induction false} LogEndsWithFault(ls: seq<Log>, hw: Hardware, bytes: seq<bv8>, i: nat, k: nat)
    requires Puts(ls, hw, bytes) && i <= k <= |bytes| && ls[i].chip.fault != NoFault
    ensures ls[k].chip.mem == ls[i].chip.mem && ls[k].chip.fault != NoFault
    ensures k < |bytes| ==> !Completed(ls[k], hw, bytes[k])
    decreases k
  {
    if i < k {
      LogEndsWithFault(ls, hw, bytes, i, k - 1);
      FaultyPut(ls, hw, bytes, k - 1);
    }
    if k < |bytes| {
      FaultyPut(ls, hw, bytes, k);
    }
  }

  lemma FaultyPut(ls: seq<Log>, hw: Hardware, bytes: seq<bv8>, k: nat)
    requires Puts(ls, hw, bytes) && k < |bytes| && ls[k].chip.fault != NoFault
    ensures ls[k + 1].chip.mem == ls[k].chip.mem && ls[k + 1].chip.fault != NoFault
    ensures !Completed(ls[k], hw, bytes[k])
  {
    assert PutAt(ls, hw, bytes, k);
    FaultyChipKeepsMemory(ls[k].chip, hw, START + ls[k].idx % SIZE, bytes[k]);
  }

  /** An error status means that a flag is up. */
  lemma ErrorRaisesFault(l: Log, hw: Hardware, b: bv8)
    requires l.Valid()
    ensures var (status, r) := Put(l, hw, b);
            status == ErrorWrp || status == ErrorProgram ==> r.chip.fault != NoFault
  {
    var c, a := l.chip.(locked := false), START + l.idx % SIZE;
    var (status, c1) := Wait(c);
    if status == Complete && b == 0 {
      ZeroByteStatus(c1, hw, a);
    }
  }

  ghost predicate Fails(l: Log, hw: Hardware, b: bv8) {
    l.Valid() && Put(l, hw, b).0 in {ErrorWrp, ErrorProgram}
  }

  lemma FailedPutRaisesFault(ls: seq<Log>, hw: Hardware, bytes: seq<bv8>, i: nat)
    requires Puts(ls, hw, bytes) && i < |bytes| && Fails(ls[i], hw, bytes[i])
    ensures ls[i + 1].chip.fault != NoFault
  {
    assert PutAt(ls, hw, bytes, i);
    ErrorRaisesFault(ls[i], hw, bytes[i]);
  }

  /** So a put that returns an error is the last one to change the memory. */
  lemma ErrorIsLastWrite(ls: seq<Log>, hw: Hardware, bytes: seq<bv8>, i: nat, k: nat)
    requires Puts(ls, hw, bytes) && i < k <= |bytes| && Fails(ls[i], hw, bytes[i])
    ensures ls[k].chip.mem == ls[i + 1].chip.mem
  {
    FailedPutRaisesFault(ls, hw, bytes, i);
    LogEndsWithFault(ls, hw, bytes, i + 1, k);
  }

  lemma ZeroByteStatus(c: Chip, hw: Hardware, a: nat)
    requires c.Valid() && a < DATA_SIZE
    ensures var (status, r) := ZeroByte(c, hw, a);
            status == ErrorWrp || status == ErrorProgram ==> r.fault != NoFault
  {
  }

  // ----- when the log works -----

  lemma SoundPut(c: Chip, hw: Hardware, a: nat, b: bv8)
    requires Ready(c) && Sound(hw) && a <= END
    ensures var (status, r) := UnlockedProgram(c, hw, a, b);
            status == Complete && r.mem == c.mem[a := b] && Ready(r)
  {
    hide ProgramByte;
    var open := c.(locked := false);
    assert Clean(hw(c.stores)) && Clean(hw(c.stores + 1));
    ProgramByteCompletes(open, hw, a, b);
    CompleteLeavesReady(open, hw, a, b);
    UnlockedProgramRefines(c, hw, a, b);
  }

  lemma UnreadyPut(c: Chip, hw: Hardware, a: nat, b: bv8)
    requires c.Valid() && !Ready(c) && a <= END
    ensures UnlockedProgram(c, hw, a, b).1.mem == c.mem
  {
  }

  /** On sound hardware a put writes its byte, whatever the byte is, if and only if no
      error flag is up and what is under way ends in time. */
  lemma PutWritesExactly(c: Chip, hw: Hardware, a: nat)
    requires c.Valid() && Sound(hw) && a <= END
    ensures (forall b: bv8 :: UnlockedProgram(c, hw, a, b).1.mem == c.mem[a := b]) <==> Ready(c)
  {
    if Ready(c) {
      forall b: bv8 ensures UnlockedProgram(c, hw, a, b).1.mem == c.mem[a := b] {
        SoundPut(c, hw, a, b);
      }
    } else {
      var b: bv8 := if c.mem[a] == 0 then 1 else 0;
      UnreadyPut(c, hw, a, b);
      assert c.mem[a := b][a] != c.mem[a];
    }
  }

  /** Exactly when a put completes, on any hardware. */
  lemma PutCompletesExactly(l: Log, hw: Hardware, b: bv8)
    requires l.Valid()
    ensures var n := l.chip.stores;
            Put(l, hw, b).0 == Complete
            <==> Ready(l.chip) && Clean(hw(n)) && (b == 0 ==> Clean(hw(n + 1)))
  {
    hide ProgramByte;
    ProgramByteCompletes(l.chip.(locked := false), hw, START + l.idx % SIZE, b);
  }

  lemma SoundStep(ls: seq<Log>, hw: Hardware, bytes: seq<bv8>, k: nat)
    requires Puts(ls, hw, bytes) && Sound(hw) && k < |bytes| && Ready(ls[k].chip)
    ensures Completed(ls[k], hw, bytes[k]) && Ready(ls[k + 1].chip)
  {
    assert PutAt(ls, hw, bytes, k);
    SoundPut(ls[k].chip, hw, START + ls[k].idx % SIZE, bytes[k]);
  }

  lemma {:induction false} SoundRunStaysReady(ls: seq<Log>, hw: Hardware, bytes: seq<bv8>, k: nat)
    requires Puts(ls, hw, bytes) && Sound(hw) && k <= |bytes| && Ready(ls[0].chip)
    ensures Ready(ls[k].chip)
    decreases k
  {
    if k > 0 {
      SoundRunStaysReady(ls, hw, bytes, k - 1);
      SoundStep(ls, hw, bytes, k - 1);
    }
  }

  lemma SoundPutAt(ls: seq<Log>, hw: Hardware, bytes: seq<bv8>, k: nat)
    requires Puts(ls, hw, bytes) && Sound(hw) && k < |bytes| && Ready(ls[0].chip)
    ensures Completed(ls[k], hw, bytes[k])
  {
    SoundRunStaysReady(ls, hw, bytes, k);
    SoundStep(ls, hw, bytes, k);
  }

  lemma SoundRunAllComplete(ls: seq<Log>, hw: Hardware, bytes: seq<bv8>)
    requires Puts(ls, hw, bytes) && Sound(hw) && Ready(ls[0].chip)
    ensures AllComplete(ls, hw, bytes)
  {
    forall i {:trigger bytes[i]} | 0 <= i < |bytes| ensures Completed(ls[i], hw, bytes[i]) {
      SoundPutAt(ls, hw, bytes, i);
    }
  }

  lemma FirstPutReady(ls: seq<Log>, hw: Hardware, bytes: seq<bv8>)
    requires AllComplete(ls, hw, bytes) && bytes != []
    ensures Ready(ls[0].chip)
  {
    assert PutAt(ls, hw, bytes, 0);
    PutCompletesExactly(ls[0], hw, bytes[0]);
  }

  /** On sound hardware a run of puts completes throughout if and only if it starts
      with a ready chip. */
  lemma SoundRunCompletes(ls: seq<Log>, hw: Hardware, bytes: seq<bv8>)
    requires Puts(ls, hw, bytes) && Sound(hw) && bytes != []
    ensures AllComplete(ls, hw, bytes) <==> Ready(ls[0].chip)
  {
    if Ready(ls[0].chip) {
      SoundRunAllComplete(ls, hw, bytes);
    }
    if AllComplete(ls, hw, bytes) {
      FirstPutReady(ls, hw, bytes);
    }
  }

  /** So on sound hardware the ring log needs a ready chip and nothing else. */
  lemma RingLogOnSoundHardware(ls: seq<Log>, hw: Hardware, bytes: seq<bv8>)
    requires Puts(ls, hw, bytes) && Sound(hw) && Ready(ls[0].chip) && ls[0].idx == 0 && |bytes| <= WRAP
    ensures var k, mem := |bytes|, ls[|bytes|].chip.mem;
            && (forall j :: 0 <= j < k && k - SIZE <= j ==> mem[START + j % SIZE] == bytes[j])
            && (forall a :: 0 <= a < DATA_SIZE && !(START <= a <= END) ==> mem[a] == ls[0].chip.mem[a])
  {
    SoundRunAllComplete(ls, hw, bytes);
    RingLog(ls, hw, bytes);
  }

  /** Put number n goes to its ring slot n mod 4095 exactly when the number of
      counter wraps before it is a multiple of 4095; the first wrap breaks the ring. */
  lemma SlotAfterWraps(n: nat)
    ensures Slot(n) == START + n % SIZE <==> n / WRAP % SIZE == 0
  {
    var q, r := n / WRAP, n % WRAP;
    assert WRAP == 1048832 * SIZE + 256;
    assert n == q * WRAP + r;
    assert n == (q * 1048832) * SIZE + (256 * q + r) by {
      assert q * WRAP == q * (1048832 * SIZE + 256);
      assert q * (1048832 * SIZE) == (q * 1048832) * SIZE;
    }
    ModPlus(256 * q + r, q * 1048832);
    assert n % SIZE == (256 * q + r) % SIZE;
    SameResidue(256 * q, r);
    SixteenTimes(q);
  }

  lemma ModPlus(x: nat, k: nat)
    ensures (k * SIZE + x) % SIZE == x % SIZE
  {
    var y := k * SIZE + x;
    assert y - SIZE * (y / SIZE) == y % SIZE;
    assert x - SIZE * (x / SIZE) == x % SIZE;
    Quotient(y, x / SIZE + k, x % SIZE);
  }

  lemma Quotient(y: nat, q: nat, r: nat)
    requires r < SIZE && y == q * SIZE + r
    ensures y % SIZE == r
  {
  }

  lemma SameResidue(d: nat, r: nat)
    ensures (d + r) % SIZE == r % SIZE <==> d % SIZE == 0
  {
    if d % SIZE == 0 {
      ModPlus(r, d / SIZE);
    } else if (d + r) % SIZE == r % SIZE {
      var s := d + r;
      assert d == SIZE * (s / SIZE - r / SIZE);
      Quotient(d, s / SIZE - r / SIZE, 0);
    }
  }

  /** 256 and 4095 are coprime, because 16 * 256 is 4095 + 1. */
  lemma SixteenTimes(q: nat)
    ensures 256 * q % SIZE == 0 <==> q % SIZE == 0
  {
    if q % SIZE == 0 {
      Quotient(256 * q, 256 * (q / SIZE), 0);
    } else if 256 * q % SIZE == 0 {
      var k := 256 * q / SIZE;
      assert q == SIZE * (16 * k - q);
      Quotient(q, 16 * k - q, 0);
    }
  }

  // ----- the code -----

  /** DATAEEPROM_ReadByte: the reserved byte and the ring can be read. */
  function ReadByte(mem: seq<bv8>, a: int): (int, bv8)
    requires |mem| == DATA_SIZE
  {
    if a < START - 1 || a > END then (-1, 0) else (0, mem[a])
  }

  /** The bytes that can be read are those from the reserved byte, just before
      EEPROM_START, to EEPROM_END; any other address is refused. */
  lemma ReadableExactly(mem: seq<bv8>, a: int)
    requires |mem| == DATA_SIZE
    ensures ReadByte(mem, a).0 == 0 <==> 0 <= a <= 0xFFF
    ensures ReadByte(mem, a).0 == 0 ==> ReadByte(mem, a).1 == mem[a]
    ensures ReadByte(mem, a).0 != 0 ==> ReadByte(mem, a).0 == -1
  {
  }

  /** What was put last can be read back from its slot. */
  lemma ReadBack(l: Log, hw: Hardware, b: bv8)
    requires l.Valid() && Put(l, hw, b).0 == Complete
    ensures ReadByte(Put(l, hw, b).1.chip.mem, Slot(l.idx)) == (0, b)
  {
    PutCompletes(l, hw, b, Put(l, hw, b).1);
  }

  lemma PutCompletes(l: Log, hw: Hardware, b: bv8, r: Log)
    requires PutStep(l, hw, b, r) && Completed(l, hw, b)
    ensures r.chip.mem == l.chip.mem[Slot(l.idx) := b] && |r.chip.mem| == DATA_SIZE
  {
    hide Put;
    PutOnRing(l, hw, l.idx, b, r);
  }

  class EepromStream {
    var idx: nat
    const flash: Flash

    ghost predicate Valid()
      reads this, flash
    {
      View().Valid()
    }

    ghost function View(): Log
      reads this, flash
    {
      Log(flash.View(), idx)
    }

    constructor (flash: Flash)
      requires flash.Valid()
      ensures Valid() && View() == Log(flash.View(), 0) && this.flash == flash
    {
      this.flash, idx := flash, 0;
    }

    method PutByte(b: bv8)
      requires Valid()
      modifies this, flash
      ensures Valid()
      ensures View() == Put(old(View()), flash.hw, b).1
    {
      var offset := idx % SIZE;
      idx := (idx + 1) % WRAP;
      flash.Unlock();
      var status := flash.ProgramByteAt(START + offset, b);
      flash.Lock();
    }
  }
}
