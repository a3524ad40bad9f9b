/**
 The data EEPROM of the STM32L1 medium-density part and the functions that
 program it. Addresses are offsets from 0x08080000. The functions over `Chip`
 say byte by byte what each driver function does; the methods of `Flash` are the
 driver code, with its polling loop and its masks, proved against them.
 */
module FlashChip {
  import opened WordBits

  /** The range IS_FLASH_DATA_ADDRESS accepts. */
  const DATA_SIZE: nat := 0x4000
  /** FLASH_ER_PRG_TIMEOUT */
  const ER_PRG_TIMEOUT: nat := 0x8000

  /** The four bytes of a word in memory order. */
  type Lanes = s: seq<bv8> | |s| == 4 witness [0, 0, 0, 0]

  datatype Status = Busy | ErrorWrp | ErrorProgram | Complete | Timeout

  /** The error flags of FLASH_SR, which this driver never clears. */
  datatype Fault = NoFault | Programming | Protection

  /** How the hardware carries out one store: for how many polls it then reads
      busy, whether it fails, and what a failed store leaves in the word. */
  datatype Outcome = Outcome(polls: nat, fault: Fault, residue: Lanes)

  /** The outcome of every store, by its number. */
  type Hardware = nat -> Outcome

  datatype Chip = Chip(mem: seq<bv8>, locked: bool, fixedTime: bool, busy: nat, fault: Fault, stores: nat) {
    ghost predicate Valid() {
      |mem| == DATA_SIZE
    }
  }

  /** The start of the word that holds address a. */
  function Aligned(a: nat): (r: nat)
    ensures r % 4 == 0 && r <= a < r + 4 && a - r == a % 4
  {
    a - a % 4
  }

  function LanesAt(mem: seq<bv8>, base: nat): (r: seq<bv8>)
    requires base + 4 <= |mem|
    ensures |r| == 4
  {
    mem[base..base + 4]
  }

  function WithLanes(mem: seq<bv8>, base: nat, lanes: seq<bv8>): (r: seq<bv8>)
    requires base + 4 <= |mem| && |lanes| == 4
    ensures |r| == |mem|
    ensures forall i :: 0 <= i < |mem| ==> r[i] == if base <= i < base + 4 then lanes[i - base] else mem[i]
  {
    mem[..base] + lanes + mem[base + 4..]
  }

  // ----- the hardware -----

  function Worse(f: Fault, g: Fault): Fault {
    if f == Protection || g == Protection then Protection
    else if f == Programming || g == Programming then Programming
    else NoFault
  }

  /** A zero byte cannot be written directly: it leaves the old byte. */
  function Written(old_: bv8, new_: bv8): bv8 {
    if new_ == 0 then old_ else new_
  }

  /** One store into the word at base. While locked it only raises an error flag. */
  function Carry(c: Chip, hw: Hardware, base: nat, lanes: seq<bv8>): (r: Chip)
    requires c.Valid() && base % 4 == 0 && base < DATA_SIZE && |lanes| == 4
    ensures r.Valid()
  {
    var o := hw(c.stores);
    if c.locked then c.(fault := Protection, stores := c.stores + 1)
    else if o.fault != NoFault then
      c.(mem := WithLanes(c.mem, base, o.residue), fault := Worse(c.fault, o.fault), busy := o.polls,
         stores := c.stores + 1)
    else c.(mem := WithLanes(c.mem, base, lanes), busy := o.polls, stores := c.stores + 1)
  }

  /** A store of a whole word. Storing zero erases the word. */
  function StoreWord(c: Chip, hw: Hardware, base: nat, w: seq<bv8>): (r: Chip)
    requires c.Valid() && base % 4 == 0 && base < DATA_SIZE && |w| == 4
    ensures r.Valid()
  {
    Carry(c, hw, base, if w == [0, 0, 0, 0] then w else Merged(LanesAt(c.mem, base), w))
  }

  function Merged(l: seq<bv8>, w: seq<bv8>): (r: seq<bv8>)
    requires |l| == |w| == 4
    ensures |r| == 4
    ensures l == [0, 0, 0, 0] ==> r == w
  {
    [Written(l[0], w[0]), Written(l[1], w[1]), Written(l[2], w[2]), Written(l[3], w[3])]
  }

  function StoreByte(c: Chip, hw: Hardware, a: nat, d: bv8): (r: Chip)
    requires c.Valid() && a < DATA_SIZE
    ensures r.Valid()
  {
    var l := LanesAt(c.mem, Aligned(a));
    Carry(c, hw, Aligned(a), l[a % 4 := Written(l[a % 4], d)])
  }

  /** An aligned half word, low byte first. */
  function StoreHalf(c: Chip, hw: Hardware, a: nat, lo: bv8, hi: bv8): (r: Chip)
    requires c.Valid() && a < DATA_SIZE && a % 2 == 0
    ensures r.Valid()
  {
    var l := LanesAt(c.mem, Aligned(a));
    Carry(c, hw, Aligned(a), l[a % 4 := Written(l[a % 4], lo)][a % 4 + 1 := Written(l[a % 4 + 1], hi)])
  }

  /** A store to an option byte. It shares the busy flag and the error flags. */
  function OptionStore(c: Chip, hw: Hardware): Chip {
    var o := hw(c.stores);
    c.(fault := Worse(c.fault, o.fault), busy := o.polls, stores := c.stores + 1)
  }

  // ----- the driver -----

  /** FLASH_GetStatus on an idle chip. */
  function IdleStatus(f: Fault): Status {
    match f
    case Protection => ErrorWrp
    case Programming => ErrorProgram
    case NoFault => Complete
  }

  /** FLASH_WaitForLastOperation in closed form. An operation that is busy for
      exactly the number of polls allowed has finished, yet reads as a timeout. */
  function Wait(c: Chip): (r: (Status, Chip))
    ensures r.0 == Complete ==> r.1.busy == 0 && r.1.fault == NoFault
    ensures r.1 == c.(busy := r.1.busy)
  {
    if c.busy < ER_PRG_TIMEOUT then (IdleStatus(c.fault), c.(busy := 0))
    else (Timeout, c.(busy := if c.busy <= ER_PRG_TIMEOUT then 0 else c.busy - ER_PRG_TIMEOUT - 1))
  }

  function EraseWord(c: Chip, hw: Hardware, base: nat): (r: (Status, Chip))
    requires c.Valid() && base % 4 == 0 && base < DATA_SIZE
    ensures r.1.Valid()
  {
    var (status, c1) := Wait(c);
    if status == Complete then (status, StoreWord(c1, hw, base, [0, 0, 0, 0])) else (status, c1)
  }

  function FastProgramWord(c: Chip, hw: Hardware, base: nat, w: seq<bv8>): (r: (Status, Chip))
    requires c.Valid() && base % 4 == 0 && base < DATA_SIZE && |w| == 4
    ensures r.1.Valid()
  {
    var (status, c1) := Wait(c);
    if status == Complete then Wait(StoreWord(c1.(fixedTime := false), hw, base, w)) else (status, c1)
  }

  /** Erase the word and program it again. The status of the erase is dropped. */
  function Rewrite(c: Chip, hw: Hardware, base: nat, w: seq<bv8>): (r: (Status, Chip))
    requires c.Valid() && base % 4 == 0 && base < DATA_SIZE && |w| == 4
    ensures r.1.Valid()
  {
    FastProgramWord(EraseWord(c, hw, base).1, hw, base, w)
  }

  function ZeroByte(c: Chip, hw: Hardware, a: nat): (r: (Status, Chip))
    requires c.Valid() && a < DATA_SIZE
    ensures r.1.Valid()
  {
    Rewrite(c, hw, Aligned(a), LanesAt(c.mem, Aligned(a))[a % 4 := 0])
  }

  function ProgramByte(c: Chip, hw: Hardware, a: nat, d: bv8): (r: (Status, Chip))
    requires c.Valid() && a < DATA_SIZE
    ensures r.1.Valid()
  {
    var (status, c1) := Wait(c);
    if status != Complete then (status, c1)
    else if d != 0 then Wait(StoreByte(c1, hw, a, d))
    else ZeroByte(c1, hw, a)
  }

  function FastProgramByte(c: Chip, hw: Hardware, a: nat, d: bv8): (r: (Status, Chip))
    requires c.Valid() && a < DATA_SIZE
    ensures r.1.Valid()
  {
    var (status, c1) := Wait(c);
    if status != Complete then (status, c1)
    else if d != 0 then Wait(StoreByte(c1.(fixedTime := false), hw, a, d))
    else ZeroByte(c1.(fixedTime := false), hw, a)
  }

  /** Whether ProgramHalfWord may be called: both bytes are data EEPROM, and a
      non-zero half word is aligned. */
  predicate HalfWordAt(a: nat, lo: bv8, hi: bv8) {
    a + 1 < DATA_SIZE && ((lo == 0 && hi == 0) || a % 2 == 0)
  }

  function ProgramHalfWord(c: Chip, hw: Hardware, a: nat, lo: bv8, hi: bv8): (r: (Status, Chip))
    requires c.Valid() && HalfWordAt(a, lo, hi)
    ensures r.1.Valid()
  {
    var (status, c1) := Wait(c);
    if status != Complete then (status, c1)
    else if lo != 0 || hi != 0 then Wait(StoreHalf(c1, hw, a, lo, hi))
    else if a % 4 != 3 then Rewrite(c1, hw, Aligned(a), LanesAt(c1.mem, Aligned(a))[a % 4 := 0][a % 4 + 1 := 0])
    else (status, FastProgramByte(FastProgramByte(c1, hw, a, 0).1, hw, a + 1, 0).1)
  }

  // ----- what they amount to -----

  /** Bytes outside the word of address a keep their value. */
  ghost predicate OnlyWordOf(a: nat, before: seq<bv8>, after: seq<bv8>) {
    && |before| == |after|
    && forall i :: 0 <= i < |before| && !(Aligned(a) <= i < Aligned(a) + 4) ==> after[i] == before[i]
  }

  /** A store that raises no error put its bytes in the word; any store leaves
      the other words alone. */
  lemma CarryCorrect(c: Chip, hw: Hardware, base: nat, lanes: seq<bv8>)
    requires c.Valid() && base % 4 == 0 && base < DATA_SIZE && |lanes| == 4
    ensures var r := Carry(c, hw, base, lanes);
            && (r.fault == NoFault ==> c.fault == NoFault && r.mem == WithLanes(c.mem, base, lanes))
            && OnlyWordOf(base, c.mem, r.mem)
  {
  }

  lemma EraseCorrect(c: Chip, hw: Hardware, base: nat)
    requires c.Valid() && base % 4 == 0 && base < DATA_SIZE
    ensures var (status, r) := EraseWord(c, hw, base);
            && (status == Complete && r.fault == NoFault ==> r.mem == WithLanes(c.mem, base, [0, 0, 0, 0]))
            && OnlyWordOf(base, c.mem, r.mem)
  {
    CarryCorrect(Wait(c).1, hw, base, [0, 0, 0, 0]);
  }

  lemma FastProgramWordCorrect(c: Chip, hw: Hardware, base: nat, w: seq<bv8>)
    requires c.Valid() && base % 4 == 0 && base < DATA_SIZE && |w| == 4
    ensures var (status, r) := FastProgramWord(c, hw, base, w);
            && (status == Complete ==> c.fault == NoFault)
            && (status == Complete && LanesAt(c.mem, base) == [0, 0, 0, 0] ==> r.mem == WithLanes(c.mem, base, w))
            && OnlyWordOf(base, c.mem, r.mem)
  {
    var c1 := Wait(c).1.(fixedTime := false);
    StoreWordCorrect(c1, hw, base, w);
  }

  lemma StoreWordCorrect(c: Chip, hw: Hardware, base: nat, w: seq<bv8>)
    requires c.Valid() && base % 4 == 0 && base < DATA_SIZE && |w| == 4
    ensures var r := StoreWord(c, hw, base, w);
            && (r.fault == NoFault ==> c.fault == NoFault)
            && (r.fault == NoFault && LanesAt(c.mem, base) == [0, 0, 0, 0] ==> r.mem == WithLanes(c.mem, base, w))
            && OnlyWordOf(base, c.mem, r.mem)
  {
    var lanes := if w == [0, 0, 0, 0] then w else Merged(LanesAt(c.mem, base), w);
    CarryCorrect(c, hw, base, lanes);
  }

  lemma RewriteCorrect(c: Chip, hw: Hardware, base: nat, w: seq<bv8>)
    requires c.Valid() && base % 4 == 0 && base < DATA_SIZE && |w| == 4
    ensures var (status, r) := Rewrite(c, hw, base, w);
            && (status == Complete && c.busy == 0 && c.fault == NoFault ==> r.mem == WithLanes(c.mem, base, w))
            && OnlyWordOf(base, c.mem, r.mem)
  {
    EraseCorrect(c, hw, base);
    var e := EraseWord(c, hw, base).1;
    FastProgramWordCorrect(e, hw, base, w);
    var r := Rewrite(c, hw, base, w).1;
    assert WithLanes(WithLanes(c.mem, base, [0, 0, 0, 0]), base, w) == WithLanes(c.mem, base, w);
  }

  lemma ZeroByteCorrect(c: Chip, hw: Hardware, a: nat)
    requires c.Valid() && a < DATA_SIZE
    ensures var (status, r) := ZeroByte(c, hw, a);
            && (status == Complete && c.busy == 0 && c.fault == NoFault ==> r.mem == c.mem[a := 0])
            && OnlyWordOf(a, c.mem, r.mem)
  {
    var lanes := LanesAt(c.mem, Aligned(a))[a % 4 := 0];
    RewriteCorrect(c, hw, Aligned(a), lanes);
    assert WithLanes(c.mem, Aligned(a), lanes) == c.mem[a := 0];
  }

  lemma StoreByteCorrect(c: Chip, hw: Hardware, a: nat, d: bv8)
    requires c.Valid() && a < DATA_SIZE && d != 0
    ensures var r := StoreByte(c, hw, a, d);
            && (r.fault == NoFault ==> r.mem == c.mem[a := d])
            && OnlyWordOf(a, c.mem, r.mem)
  {
    var lanes := LanesAt(c.mem, Aligned(a))[a % 4 := d];
    CarryCorrect(c, hw, Aligned(a), lanes);
    assert WithLanes(c.mem, Aligned(a), lanes) == c.mem[a := d];
  }

  /** Both ways of writing a byte, on a chip that is ready. */
  lemma ByteStepCorrect(c: Chip, hw: Hardware, a: nat, d: bv8)
    requires c.Valid() && a < DATA_SIZE
    ensures d != 0 ==> var r := StoreByte(c, hw, a, d);
            (r.fault == NoFault ==> r.mem == c.mem[a := d]) && OnlyWordOf(a, c.mem, r.mem)
    ensures d == 0 ==> var (status, r) := ZeroByte(c, hw, a);
            && (status == Complete && c.busy == 0 && c.fault == NoFault ==> r.mem == c.mem[a := d])
            && OnlyWordOf(a, c.mem, r.mem)
  {
    if d != 0 {
      StoreByteCorrect(c, hw, a, d);
    } else {
      ZeroByteCorrect(c, hw, a);
    }
  }

  /** ProgramByte refines a plain byte write: whenever it returns COMPLETE, on any
      hardware, the memory is the old one with the byte replaced. Whatever it
      returns, bytes outside the word of that address are unchanged. */
  lemma ProgramByteRefines(c: Chip, hw: Hardware, a: nat, d: bv8)
    requires c.Valid() && a < DATA_SIZE
    ensures var (status, r) := ProgramByte(c, hw, a, d);
            && (status == Complete ==> r.mem == c.mem[a := d])
            && OnlyWordOf(a, c.mem, r.mem)
  {
    ByteStepCorrect(Wait(c).1, hw, a, d);
  }

  lemma FastProgramByteRefines(c: Chip, hw: Hardware, a: nat, d: bv8)
    requires c.Valid() && a < DATA_SIZE
    ensures var (status, r) := FastProgramByte(c, hw, a, d);
            && (status == Complete ==> r.mem == c.mem[a := d])
            && OnlyWordOf(a, c.mem, r.mem)
  {
    ByteStepCorrect(Wait(c).1.(fixedTime := false), hw, a, d);
  }

  /** Both byte operations behind a half word that crosses a word boundary complete. */
  ghost predicate CrossingCompletes(c: Chip, hw: Hardware, a: nat)
    requires c.Valid() && a + 1 < DATA_SIZE
  {
    var (s1, c1) := FastProgramByte(Wait(c).1, hw, a, 0);
    s1 == Complete && FastProgramByte(c1, hw, a + 1, 0).0 == Complete
  }

  /** Clearing a half word clears exactly its two bytes at all four offsets. Inside
      a word COMPLETE is enough; across words both byte operations must complete. */
  lemma ProgramHalfWordClears(c: Chip, hw: Hardware, a: nat)
    requires c.Valid() && a + 1 < DATA_SIZE
    requires ProgramHalfWord(c, hw, a, 0, 0).0 == Complete
    requires a % 4 == 3 ==> CrossingCompletes(c, hw, a)
    ensures ProgramHalfWord(c, hw, a, 0, 0).1.mem == c.mem[a := 0][a + 1 := 0]
  {
    if a % 4 != 3 {
      HalfInsideWord(Wait(c).1, hw, a);
    } else {
      HalfAcrossWords(Wait(c).1, hw, a);
    }
  }

  lemma HalfInsideWord(c: Chip, hw: Hardware, a: nat)
    requires c.Valid() && c.busy == 0 && c.fault == NoFault && a + 1 < DATA_SIZE && a % 4 != 3
    ensures var (status, r) := Rewrite(c, hw, Aligned(a), LanesAt(c.mem, Aligned(a))[a % 4 := 0][a % 4 + 1 := 0]);
            status == Complete ==> r.mem == c.mem[a := 0][a + 1 := 0]
  {
    var lanes := LanesAt(c.mem, Aligned(a))[a % 4 := 0][a % 4 + 1 := 0];
    RewriteCorrect(c, hw, Aligned(a), lanes);
    HalfOfWord(c.mem, a);
  }

  lemma HalfOfWord(mem: seq<bv8>, a: nat)
    requires |mem| == DATA_SIZE && a + 1 < DATA_SIZE && a % 4 != 3
    ensures WithLanes(mem, Aligned(a), LanesAt(mem, Aligned(a))[a % 4 := 0][a % 4 + 1 := 0]) == mem[a := 0][a + 1 := 0]
  {
  }

  lemma HalfAcrossWords(c: Chip, hw: Hardware, a: nat)
    requires c.Valid() && a + 1 < DATA_SIZE
    ensures var (s1, c1) := FastProgramByte(c, hw, a, 0);
            var (s2, c2) := FastProgramByte(c1, hw, a + 1, 0);
            s1 == Complete && s2 == Complete ==> c2.mem == c.mem[a := 0][a + 1 := 0]
  {
    FastProgramByteRefines(c, hw, a, 0);
    FastProgramByteRefines(FastProgramByte(c, hw, a, 0).1, hw, a + 1, 0);
  }

  /** A COMPLETE return means the half word is clear, on every chip and hardware,
      exactly when it lies inside one word: across words the statuses of the byte
      operations are dropped. */
  lemma CompleteMeansClearedExactly(a: nat)
    requires a + 1 < DATA_SIZE
    ensures (forall c: Chip, hw: Hardware :: c.Valid() && ProgramHalfWord(c, hw, a, 0, 0).0 == Complete ==>
               ProgramHalfWord(c, hw, a, 0, 0).1.mem == c.mem[a := 0][a + 1 := 0])
            <==> a % 4 != 3
  {
    if a % 4 != 3 {
      forall c: Chip, hw: Hardware | c.Valid() && ProgramHalfWord(c, hw, a, 0, 0).0 == Complete
        ensures ProgramHalfWord(c, hw, a, 0, 0).1.mem == c.mem[a := 0][a + 1 := 0]
      {
        ProgramHalfWordClears(c, hw, a);
      }
    } else {
      var c := Chip(seq(DATA_SIZE, _ => 1), true, false, 0, NoFault, 0);
      var hw: Hardware := (_: nat) => Outcome(0, NoFault, [0, 0, 0, 0]);
      LockedKeepsMemory(c, hw, a);
      assert ProgramHalfWord(c, hw, a, 0, 0).1.mem[a] == 1;
    }
  }

  /** A locked chip keeps its memory, and the crossing half word still says COMPLETE. */
  lemma LockedKeepsMemory(c: Chip, hw: Hardware, a: nat)
    requires c.Valid() && c.locked && c.busy == 0 && c.fault == NoFault && a % 4 == 3 && a + 1 < DATA_SIZE
    ensures ProgramHalfWord(c, hw, a, 0, 0).0 == Complete
    ensures ProgramHalfWord(c, hw, a, 0, 0).1.mem == c.mem
  {
    var c1 := FastProgramByte(Wait(c).1, hw, a, 0).1;
    assert c1.mem == c.mem && c1.fault == Protection && c1.busy == 0;
  }

  // ----- when an operation completes -----

  /** The store succeeds and is done before the driver stops waiting. */
  ghost predicate Clean(o: Outcome) {
    o.fault == NoFault && o.polls < ER_PRG_TIMEOUT
  }

  /** No error flag is up, and what is under way ends in time. */
  ghost predicate Ready(c: Chip) {
    c.Valid() && c.fault == NoFault && c.busy < ER_PRG_TIMEOUT
  }

  /** Waiting for a store on an unlocked chip succeeds exactly when the store is clean
      and no flag was up before. */
  lemma CarryCompletes(c: Chip, hw: Hardware, base: nat, lanes: seq<bv8>)
    requires c.Valid() && !c.locked && c.fault == NoFault && base % 4 == 0 && base < DATA_SIZE && |lanes| == 4
    ensures var r := Carry(c, hw, base, lanes);
            && (Wait(r).0 == Complete <==> Clean(hw(c.stores)))
            && r.stores == c.stores + 1 && !r.locked
            && (Clean(hw(c.stores)) ==> Ready(r))
  {
  }

  lemma ZeroByteCompletes(c: Chip, hw: Hardware, a: nat)
    requires c.Valid() && !c.locked && c.busy == 0 && c.fault == NoFault && a < DATA_SIZE
    ensures ZeroByte(c, hw, a).0 == Complete <==> Clean(hw(c.stores)) && Clean(hw(c.stores + 1))
  {
    CarryCompletes(c, hw, Aligned(a), [0, 0, 0, 0]);
    var e := EraseWord(c, hw, Aligned(a)).1;
    assert e == Carry(c, hw, Aligned(a), [0, 0, 0, 0]);
    RewriteCompletes(e, hw, Aligned(a), LanesAt(c.mem, Aligned(a))[a % 4 := 0]);
  }

  /** A word store completes exactly when the chip is ready and the store is clean. */
  lemma RewriteCompletes(c: Chip, hw: Hardware, base: nat, w: seq<bv8>)
    requires c.Valid() && !c.locked && base % 4 == 0 && base < DATA_SIZE && |w| == 4
    ensures FastProgramWord(c, hw, base, w).0 == Complete <==> Ready(c) && Clean(hw(c.stores))
  {
    if Ready(c) {
      var c1 := Wait(c).1.(fixedTime := false);
      CarryCompletes(c1, hw, base, if w == [0, 0, 0, 0] then w else Merged(LanesAt(c1.mem, base), w));
    }
  }

  /** Exactly when ProgramByte completes, on an unlocked chip and any hardware: the
      chip is ready, and the one store, or the two that a zero byte takes, are clean. */
  lemma ProgramByteCompletes(c: Chip, hw: Hardware, a: nat, d: bv8)
    requires c.Valid() && !c.locked && a < DATA_SIZE
    ensures ProgramByte(c, hw, a, d).0 == Complete
            <==> Ready(c) && Clean(hw(c.stores)) && (d == 0 ==> Clean(hw(c.stores + 1)))
  {
    if Ready(c) {
      var c1 := Wait(c).1;
      if d == 0 {
        ZeroByteCompletes(c1, hw, a);
      } else {
        var l := LanesAt(c1.mem, Aligned(a));
        CarryCompletes(c1, hw, Aligned(a), l[a % 4 := Written(l[a % 4], d)]);
      }
    }
  }

  /** Every store succeeds and is done in time. */
  ghost predicate Sound(hw: Hardware) {
    forall n: nat :: Clean(hw(n))
  }

  lemma FastProgramByteOnSoundHardware(c: Chip, hw: Hardware, a: nat)
    requires Ready(c) && !c.locked && Sound(hw) && a < DATA_SIZE
    ensures var (status, r) := FastProgramByte(c, hw, a, 0); status == Complete && Ready(r) && !r.locked
  {
    var c1 := Wait(c).1.(fixedTime := false);
    assert Clean(hw(c.stores)) && Clean(hw(c.stores + 1));
    ZeroByteCompletes(c1, hw, a);
  }

  /** On sound hardware a ready, unlocked chip clears a half word at all four offsets. */
  lemma HalfWordOnSoundHardware(c: Chip, hw: Hardware, a: nat)
    requires Ready(c) && !c.locked && Sound(hw) && a + 1 < DATA_SIZE
    ensures var (status, r) := ProgramHalfWord(c, hw, a, 0, 0);
            status == Complete && r.mem == c.mem[a := 0][a + 1 := 0]
  {
    var c1 := Wait(c).1;
    if a % 4 == 3 {
      FastProgramByteOnSoundHardware(c1, hw, a);
      FastProgramByteOnSoundHardware(FastProgramByte(c1, hw, a, 0).1, hw, a + 1);
    } else {
      assert Clean(hw(c.stores)) && Clean(hw(c.stores + 1));
      CarryCompletes(c1, hw, Aligned(a), [0, 0, 0, 0]);
      RewriteCompletes(EraseWord(c1, hw, Aligned(a)).1, hw, Aligned(a),
                       LanesAt(c1.mem, Aligned(a))[a % 4 := 0][a % 4 + 1 := 0]);
    }
    ProgramHalfWordClears(c, hw, a);
  }

  /** The lanes of a half word store, as a write to the byte map. */
  lemma HalfLanes(mem: seq<bv8>, a: nat, lo: bv8, hi: bv8)
    requires |mem| == DATA_SIZE && a + 1 < DATA_SIZE && a % 4 != 3
    ensures WithLanes(mem, Aligned(a), LanesAt(mem, Aligned(a))[a % 4 := lo][a % 4 + 1 := hi])
            == mem[a := lo][a + 1 := hi]
  {
    var base, k := Aligned(a), a % 4;
    var r, q := WithLanes(mem, base, LanesAt(mem, base)[k := lo][k + 1 := hi]), mem[a := lo][a + 1 := hi];
    assert a == base + k;
    forall i | 0 <= i < |mem| ensures r[i] == q[i] {
    }
  }

  /** A non-zero half word, on a ready, unlocked chip and sound hardware: each byte that
      is not zero is written, and a zero byte leaves the old one. */
  lemma HalfWordLeaves(c: Chip, hw: Hardware, a: nat, lo: bv8, hi: bv8)
    requires Ready(c) && !c.locked && Sound(hw) && HalfWordAt(a, lo, hi) && (lo != 0 || hi != 0)
    ensures var (status, r) := ProgramHalfWord(c, hw, a, lo, hi);
            && status == Complete
            && r.mem == c.mem[a := if lo != 0 then lo else c.mem[a]][a + 1 := if hi != 0 then hi else c.mem[a + 1]]
  {
    var c1 := Wait(c).1;
    var l := LanesAt(c1.mem, Aligned(a));
    assert Clean(hw(c.stores));
    assert l[a % 4] == c.mem[a] && l[a % 4 + 1] == c.mem[a + 1];
    CarryCompletes(c1, hw, Aligned(a), l[a % 4 := Written(l[a % 4], lo)][a % 4 + 1 := Written(l[a % 4 + 1], hi)]);
    HalfLanes(c.mem, a, Written(c.mem[a], lo), Written(c.mem[a + 1], hi));
  }

  /** So the half word is in memory if and only if a byte that should become zero was
      zero already: unlike the byte operations, this one does not erase for it. */
  lemma HalfWordWritesExactly(c: Chip, hw: Hardware, a: nat, lo: bv8, hi: bv8)
    requires Ready(c) && !c.locked && Sound(hw) && HalfWordAt(a, lo, hi) && (lo != 0 || hi != 0)
    ensures ProgramHalfWord(c, hw, a, lo, hi).1.mem == c.mem[a := lo][a + 1 := hi]
            <==> (lo != 0 || c.mem[a] == 0) && (hi != 0 || c.mem[a + 1] == 0)
  {
    HalfWordLeaves(c, hw, a, lo, hi);
    var want, got := c.mem[a := lo][a + 1 := hi], ProgramHalfWord(c, hw, a, lo, hi).1.mem;
    assert want[a] == lo && want[a + 1] == hi;
    assert got[a] == (if lo != 0 then lo else c.mem[a]) && got[a + 1] == (if hi != 0 then hi else c.mem[a + 1]);
  }

  /** On a locked chip nothing is written and the protection error is returned. */
  lemma LockedProgramFails(c: Chip, hw: Hardware, a: nat, d: bv8)
    requires Ready(c) && c.locked && a < DATA_SIZE
    ensures var (status, r) := ProgramByte(c, hw, a, d);
            status == ErrorWrp && r.mem == c.mem && r.fault == Protection
    ensures var (status, r) := FastProgramByte(c, hw, a, d);
            status == ErrorWrp && r.mem == c.mem && r.fault == Protection
  {
  }

  /** On a chip with an error flag up nothing is written, and the flag tells which
      error is returned. */
  lemma FaultyProgramFails(c: Chip, hw: Hardware, a: nat, d: bv8)
    requires c.Valid() && c.fault != NoFault && c.busy < ER_PRG_TIMEOUT && a < DATA_SIZE
    ensures var (status, r) := ProgramByte(c, hw, a, d);
            status == (if c.fault == Protection then ErrorWrp else ErrorProgram) && r.mem == c.mem
  {
  }

  /** On a chip that stays busy nothing is written, and the timeout is returned. */
  lemma BusyProgramTimesOut(c: Chip, hw: Hardware, a: nat, d: bv8)
    requires c.Valid() && c.busy >= 0x8000 && a < DATA_SIZE
    ensures var (status, r) := ProgramByte(c, hw, a, d); status == Timeout && r.mem == c.mem
  {
  }

  /** A caller that waits again after a timeout is told that the operation is done
      exactly when it ends within the second wait. */
  lemma TimeoutThenRetry(c: Chip)
    requires c.busy >= ER_PRG_TIMEOUT
    ensures Wait(c).0 == Timeout
    ensures Wait(Wait(c).1).0 != Timeout <==> c.busy < 2 * ER_PRG_TIMEOUT + 1
  {
  }

  /** The fixed-time mode: the fast form clears it as soon as the chip is ready; the
      other form keeps it for a non-zero byte, and for a zero byte clears it once the
      erase is done. */
  lemma FixedTimeKept(c: Chip, hw: Hardware, a: nat, d: bv8)
    requires c.Valid() && a < DATA_SIZE
    ensures FastProgramByte(c, hw, a, d).1.fixedTime <==> c.fixedTime && !Ready(c)
    ensures d != 0 ==> ProgramByte(c, hw, a, d).1.fixedTime == c.fixedTime
    ensures d == 0 ==> (ProgramByte(c, hw, a, d).1.fixedTime
                        <==> c.fixedTime && !(Ready(c) && !c.locked && Clean(hw(c.stores))))
  {
  }

  /** A complete operation leaves the chip ready, so the next one can start. */
  lemma CompleteLeavesReady(c: Chip, hw: Hardware, a: nat, d: bv8)
    requires c.Valid() && a < DATA_SIZE && ProgramByte(c, hw, a, d).0 == Complete
    ensures Ready(ProgramByte(c, hw, a, d).1)
  {
  }

  // ----- the code -----

  class Flash {
    /** The memory and the bits of the status and control registers. */
    var mem: seq<bv8>
    var locked: bool
    var fixedTime: bool
    var busy: nat
    var fault: Fault
    var stores: nat
    const hw: Hardware

    ghost predicate Valid()
      reads this
    {
      |mem| == DATA_SIZE
    }

    ghost function View(): Chip
      reads this
    {
      Chip(mem, locked, fixedTime, busy, fault, stores)
    }

    constructor (mem: seq<bv8>, hw: Hardware)
      requires |mem| == DATA_SIZE
      ensures Valid() && View() == Chip(mem, true, false, 0, NoFault, 0) && this.hw == hw
    {
      this.mem, this.hw := mem, hw;
      locked, fixedTime, busy, fault, stores := true, false, 0, NoFault, 0;
    }

    /** A store to the data EEPROM, carried out by the hardware. */
    method HardwareStore(base: nat, lanes: seq<bv8>)
      requires Valid() && base % 4 == 0 && base < DATA_SIZE && |lanes| == 4
      modifies this
      ensures Valid() && View() == Carry(old(View()), hw, base, lanes)
    {
      var o := hw(stores);
      if locked {
        fault := Protection;
      } else if o.fault != NoFault {
        mem, fault, busy := WithLanes(mem, base, o.residue), Worse(fault, o.fault), o.polls;
      } else {
        mem, busy := WithLanes(mem, base, lanes), o.polls;
      }
      stores := stores + 1;
    }

    method StoreWordAt(base: nat, w: bv32)
      requires Valid() && base % 4 == 0 && base < DATA_SIZE
      modifies this
      ensures Valid() && View() == StoreWord(old(View()), hw, base, Bytes(w))
    {
      var l, b := LanesAt(mem, base), Bytes(w);
      if b == [0, 0, 0, 0] {
        HardwareStore(base, b);
      } else {
        HardwareStore(base, Merged(l, b));
      }
    }

    method StoreByteAt(a: nat, d: bv8)
      requires Valid() && a < DATA_SIZE
      modifies this
      ensures Valid() && View() == StoreByte(old(View()), hw, a, d)
    {
      var l := LanesAt(mem, Aligned(a));
      HardwareStore(Aligned(a), l[a % 4 := Written(l[a % 4], d)]);
    }

    /** A store to an option register; `after` is what the register then holds. */
    method StoreOption(value: bv32) returns (after: bv32)
      modifies this`fault, this`busy, this`stores
      ensures View() == OptionStore(old(View()), hw)
      ensures fault == NoFault ==> after == value
    {
      var o := hw(stores);
      after := value;
      if o.fault != NoFault {
        after := Word(o.residue[0], o.residue[1], o.residue[2], o.residue[3]);
      }
      fault, busy, stores := Worse(fault, o.fault), o.polls, stores + 1;
    }

    method LoadWord(base: nat) returns (w: bv32)
      requires Valid() && base % 4 == 0 && base < DATA_SIZE
      ensures Bytes(w) == LanesAt(mem, base)
    {
      WordBytes(mem[base], mem[base + 1], mem[base + 2], mem[base + 3]);
      w := Word(mem[base], mem[base + 1], mem[base + 2], mem[base + 3]);
    }

    /** FLASH_GetStatus. A poll lets time pass. */
    method GetStatus() returns (status: Status)
      modifies this`busy
      ensures status == Busy <==> old(busy) > 0
      ensures status == ErrorWrp <==> old(busy) == 0 && fault == Protection
      ensures status == ErrorProgram <==> old(busy) == 0 && fault == Programming
      ensures status == Complete <==> old(busy) == 0 && fault == NoFault
      ensures status != Timeout
      ensures busy == if old(busy) > 0 then old(busy) - 1 else 0
    {
      if busy > 0 {
        busy := busy - 1;
        return Busy;
      }
      status := if fault == Protection then ErrorWrp else if fault == Programming then ErrorProgram else Complete;
    }

    /** FLASH_WaitForLastOperation */
    method WaitForLastOperation() returns (status: Status)
      modifies this`busy
      ensures (status, View()) == Wait(old(View()))
    {
      var timeout: nat := ER_PRG_TIMEOUT;
      status := GetStatus();
      while status == Busy && timeout != 0
        invariant timeout <= ER_PRG_TIMEOUT
        invariant status == Busy ==> old(busy) == busy + 1 + (ER_PRG_TIMEOUT - timeout)
        invariant status != Busy ==> busy == 0 && status == IdleStatus(fault)
                                     && old(busy) == ER_PRG_TIMEOUT - timeout
        decreases timeout
      {
        status := GetStatus();
        timeout := timeout - 1;
      }
      if timeout == 0 {
        status := Timeout;
      }
    }

    /** DATA_EEPROM_Unlock: the two keys clear PELOCK. */
    method Unlock()
      modifies this`locked
      ensures !locked
    {
      if locked {
        locked := false;
      }
    }

    /** DATA_EEPROM_Lock */
    method Lock()
      modifies this`locked
      ensures locked
    {
      locked := true;
    }

    /** DATA_EEPROM_EraseWord */
    method EraseWordAt(base: nat) returns (status: Status)
      requires Valid() && base % 4 == 0 && base < DATA_SIZE
      modifies this
      ensures Valid() && (status, View()) == EraseWord(old(View()), hw, base)
    {
      status := WaitForLastOperation();
      if status == Complete {
        StoreWordAt(base, 0);
      }
    }

    /** DATA_EEPROM_FastProgramWord */
    method FastProgramWordAt(base: nat, w: bv32) returns (status: Status)
      requires Valid() && base % 4 == 0 && base < DATA_SIZE
      modifies this
      ensures Valid() && (status, View()) == FastProgramWord(old(View()), hw, base, Bytes(w))
    {
      status := WaitForLastOperation();
      if status == Complete {
        fixedTime := false;
        StoreWordAt(base, w);
        status := WaitForLastOperation();
      }
    }

    /** The read-modify-write that clears a byte. */
    method ClearByte(a: nat) returns (status: Status)
      requires Valid() && a < DATA_SIZE
      modifies this
      ensures Valid() && (status, View()) == ZeroByte(old(View()), hw, a)
    {
      var tmp := LoadWord(Aligned(a));
      tmp := WithoutByte(tmp, a % 4);
      status := EraseWordAt(Aligned(a));
      status := FastProgramWordAt(Aligned(a), tmp);
    }

    /** DATA_EEPROM_ProgramByte */
    method ProgramByteAt(a: nat, d: bv8) returns (status: Status)
      requires Valid() && a < DATA_SIZE
      modifies this
      ensures Valid() && (status, View()) == ProgramByte(old(View()), hw, a, d)
    {
      status := WaitForLastOperation();
      if status == Complete {
        if d != 0 {
          StoreByteAt(a, d);
          status := WaitForLastOperation();
        } else {
          status := ClearByte(a);
        }
      }
    }

    /** DATA_EEPROM_FastProgramByte */
    method FastProgramByteAt(a: nat, d: bv8) returns (status: Status)
      requires Valid() && a < DATA_SIZE
      modifies this
      ensures Valid() && (status, View()) == FastProgramByte(old(View()), hw, a, d)
    {
      status := WaitForLastOperation();
      if status == Complete {
        fixedTime := false;
        if d != 0 {
          StoreByteAt(a, d);
          status := WaitForLastOperation();
        } else {
          status := ClearByte(a);
        }
      }
    }

    /** DATA_EEPROM_ProgramHalfWord */
    method ProgramHalfWordAt(a: nat, lo: bv8, hi: bv8) returns (status: Status)
      requires Valid() && HalfWordAt(a, lo, hi)
      modifies this
      ensures Valid() && (status, View()) == ProgramHalfWord(old(View()), hw, a, lo, hi)
    {
      status := WaitForLastOperation();
      if status == Complete {
        if lo != 0 || hi != 0 {
          var l := LanesAt(mem, Aligned(a));
          HardwareStore(Aligned(a), l[a % 4 := Written(l[a % 4], lo)][a % 4 + 1 := Written(l[a % 4 + 1], hi)]);
          status := WaitForLastOperation();
        } else if a % 4 != 3 {
          var tmp := LoadWord(Aligned(a));
          tmp := WithoutHalf(tmp, a % 4);
          status := EraseWordAt(Aligned(a));
          status := FastProgramWordAt(Aligned(a), tmp);
        } else {
          var first := FastProgramByteAt(a, 0);
          var second := FastProgramByteAt(a + 1, 0);
        }
      }
    }
  }
}
