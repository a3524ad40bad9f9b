/**
 Write protection of the flash sectors by option bytes. One bank of 32 sectors
 is kept in the low halves of two registers (WRP01 and WRP23; WRP45 and WRP67,
 WRP89 and WRP1011 for the twins), each with the complement of its low half in
 its high half.
 */
module ProtectionBits {

  datatype Bank = Bank(lower: bv32, upper: bv32)

  function Low(register: bv32): bv32 {
    register & 0xFFFF
  }

  /** The complement in the high half, the data in the low half. */
  function Encoded(data: bv32): bv32 {
    ((!data) << 16) | data
  }

  function Enabled(b: Bank, mask: bv32): Bank {
    Bank(Encoded(Low((mask & 0x0000_FFFF) | b.lower)),
         Encoded(Low(((mask & 0xFFFF_0000) >> 16) | b.upper)))
  }

  function Disabled(b: Bank, mask: bv32): Bank {
    Bank(Encoded(Low(!mask & (0x0000_FFFF & b.lower))),
         Encoded(Low(((!mask & 0xFFFF_0000) >> 16) & b.upper)))
  }

  /** FLASH_OB_WRPConfig on the two registers. */
  function Config(b: Bank, mask: bv32, enable: bool): Bank {
    if enable then Enabled(b, mask) else Disabled(b, mask)
  }

  /** The 32 protection bits of a bank. */
  function ProtectedBits(b: Bank): bv32 {
    Low(b.lower) | (Low(b.upper) << 16)
  }

  predicate Complemented(register: bv32) {
    register >> 16 == !register & 0xFFFF
  }

  lemma EnableBits(b: Bank, mask: bv32)
    ensures ProtectedBits(Config(b, mask, true)) == ProtectedBits(b) | mask
  {
  }

  lemma DisableBits(b: Bank, mask: bv32)
    ensures ProtectedBits(Config(b, mask, false)) == ProtectedBits(b) & !mask
  {
  }

  /** After any configuration each register carries its own complement. */
  lemma ConfigComplements(b: Bank, mask: bv32, enable: bool)
    ensures Complemented(Config(b, mask, enable).lower) && Complemented(Config(b, mask, enable).upper)
  {
    if enable {
      EnabledComplements(b, mask);
    } else {
      DisabledComplements(b, mask);
    }
  }

  lemma EnabledComplements(b: Bank, mask: bv32)
    ensures Complemented(Enabled(b, mask).lower) && Complemented(Enabled(b, mask).upper)
  {
  }

  lemma DisabledComplements(b: Bank, mask: bv32)
    ensures Complemented(Disabled(b, mask).lower) && Complemented(Disabled(b, mask).upper)
  {
  }

  /** A mask with at most one bit. */
  predicate Single(o: bv32) {
    o & (o - 1) == 0
  }

  lemma OrBit(a: bv32, b: bv32, o: bv32)
    ensures (a | b) & o != 0 <==> a & o != 0 || b & o != 0
  {
  }

  lemma AndNotBit(a: bv32, b: bv32, o: bv32)
    requires Single(o)
    ensures (a & !b) & o != 0 <==> a & o != 0 && b & o == 0
  {
  }

  /** The bank q protects what b does with the sectors of the mask added or removed,
      and each register carries its complement. */
  ghost predicate Configured(b: Bank, q: Bank, mask: bv32, enable: bool) {
    && ProtectedBits(q) == (if enable then ProtectedBits(b) | mask else ProtectedBits(b) & !mask)
    && Complemented(q.lower) && Complemented(q.upper)
  }

  /** The protected bits and the complements leave no choice. */
  lemma BitsAndComplements(r: Bank, q: Bank)
    requires ProtectedBits(r) == ProtectedBits(q)
    requires Complemented(r.lower) && Complemented(r.upper) && Complemented(q.lower) && Complemented(q.upper)
    ensures r == q
  {
  }

  lemma ConfigBits(b: Bank, mask: bv32, enable: bool)
    ensures ProtectedBits(Config(b, mask, enable))
            == if enable then ProtectedBits(b) | mask else ProtectedBits(b) & !mask
  {
    if enable {
      EnableBits(b, mask);
    } else {
      DisableBits(b, mask);
    }
  }

  lemma ConfigIsConfigured(b: Bank, mask: bv32, enable: bool)
    ensures Configured(b, Config(b, mask, enable), mask, enable)
  {
    ConfigComplements(b, mask, enable);
    ConfigBits(b, mask, enable);
  }

  lemma ConfiguredUnique(b: Bank, q: Bank, r: Bank, mask: bv32, enable: bool)
    requires Configured(b, q, mask, enable) && Configured(b, r, mask, enable)
    ensures q == r
  {
    BitsAndComplements(q, r);
  }

  /** So that meaning determines the registers. */
  lemma ConfiguredExactly(b: Bank, q: Bank, mask: bv32, enable: bool)
    ensures Configured(b, q, mask, enable) <==> q == Config(b, mask, enable)
  {
    ConfigIsConfigured(b, mask, enable);
    if Configured(b, q, mask, enable) {
      ConfiguredUnique(b, q, Config(b, mask, enable), mask, enable);
    }
  }

  lemma UnionOfHalves(b: Bank, lower: bv32, upper: bv32, mask: bv32)
    requires Low(lower) == Low((mask & 0x0000_FFFF) | b.lower)
    requires Low(upper) == Low(((mask & 0xFFFF_0000) >> 16) | b.upper)
    ensures ProtectedBits(Bank(lower, upper)) == ProtectedBits(b) | mask
  {
  }

  lemma DifferenceOfHalves(b: Bank, lower: bv32, upper: bv32, mask: bv32)
    requires Low(lower) == Low(!mask & (0x0000_FFFF & b.lower))
    requires Low(upper) == Low(((!mask & 0xFFFF_0000) >> 16) & b.upper)
    ensures ProtectedBits(Bank(lower, upper)) == ProtectedBits(b) & !mask
  {
  }

  lemma HalfAndComplement(data: bv32)
    ensures Low(Encoded(Low(data))) == Low(data) && Complemented(Encoded(Low(data)))
  {
  }

  /** The cast to 16 bits and the register made of it. */
  method Register(data: bv32) returns (register: bv32)
    ensures Low(register) == Low(data) && Complemented(register)
  {
    HalfAndComplement(data);
    register := Encoded(Low(data));
  }

  /** The new register values, as the driver computes them. */
  method NewRegisters(b: Bank, mask: bv32, enable: bool) returns (r: Bank)
    ensures Configured(b, r, mask, enable)
  {
    if enable {
      var lower := Register((mask & 0x0000_FFFF) | b.lower);
      var upper := Register(((mask & 0xFFFF_0000) >> 16) | b.upper);
      UnionOfHalves(b, lower, upper, mask);
      r := Bank(lower, upper);
    } else {
      var lower := Register(!mask & (0x0000_FFFF & b.lower));
      var upper := Register(((!mask & 0xFFFF_0000) >> 16) & b.upper);
      DifferenceOfHalves(b, lower, upper, mask);
      r := Bank(lower, upper);
    }
  }

  /** The sector of bit o is write protected. */
  predicate IsProtected(b: Bank, o: bv32) {
    ProtectedBits(b) & o != 0
  }

  /** A call decides the sectors of its mask and leaves the others as they were. */
  lemma ConfigSector(b: Bank, mask: bv32, enable: bool, o: bv32)
    requires Single(o)
    ensures IsProtected(Config(b, mask, enable), o) <==>
            if mask & o != 0 then enable else IsProtected(b, o)
  {
    var bits := ProtectedBits(b);
    if enable {
      EnableBits(b, mask);
      OrBit(bits, mask, o);
    } else {
      DisableBits(b, mask);
      AndNotBit(bits, mask, o);
    }
  }
}

module WriteProtect {
  import opened ProtectionBits

  datatype Call = Call(mask: bv32, enable: bool)

  function ConfigAll(b: Bank, calls: seq<Call>): Bank {
    if calls == [] then b
    else Config(ConfigAll(b, calls[..|calls| - 1]), calls[|calls| - 1].mask, calls[|calls| - 1].enable)
  }

  /** Adding the masks of the enabling calls to the protected set and removing
      those of the disabling calls, seen at one sector: the last call whose mask
      holds the sector decides. */
  predicate Decided(was: bool, calls: seq<Call>, o: bv32) {
    if calls == [] then was
    else
      var last := calls[|calls| - 1];
      if last.mask & o != 0 then last.enable else Decided(was, calls[..|calls| - 1], o)
  }

  /** After any sequence of calls with any 32-bit masks, whatever the high halves
      held before, a sector is protected exactly when the fold of the masks has it. */
  lemma {:induction false} ProtectionRuns(b: Bank, calls: seq<Call>, o: bv32)
    requires Single(o)
    ensures IsProtected(ConfigAll(b, calls), o) <==> Decided(IsProtected(b, o), calls, o)
  {
    if calls != [] {
      var before, last := calls[..|calls| - 1], calls[|calls| - 1];
      ProtectionRuns(b, before, o);
      ConfigSector(ConfigAll(b, before), last.mask, last.enable, o);
    }
  }

  /** After any call each register holds the complement of its low half in its
      high half. */
  lemma RegistersComplemented(b: Bank, calls: seq<Call>)
    requires calls != []
    ensures Complemented(ConfigAll(b, calls).lower) && Complemented(ConfigAll(b, calls).upper)
  {
    var last := calls[|calls| - 1];
    ConfigComplements(ConfigAll(b, calls[..|calls| - 1]), last.mask, last.enable);
  }
}

module OptionBytes {
  import opened FlashChip
  import opened ProtectionBits

  /** Exactly when a configuration completes, on any hardware: the chip is ready,
      neither store fails, and the second is done in time; the bus holds it back until
      the first is. */
  lemma ConfigCompletesExactly(c: Chip, hw: Hardware)
    requires c.Valid()
    ensures var n := c.stores;
            Wait(c).0 == Complete && Wait(OptionStore(OptionStore(Wait(c).1, hw), hw)).0 == Complete
            <==> Ready(c) && hw(n).fault == NoFault && Clean(hw(n + 1))
  {
  }

  class OptionBank {
    /** The two registers of the bank. */
    var registers: Bank
    const flash: Flash

    constructor (registers: Bank, flash: Flash)
      ensures this.registers == registers && this.flash == flash
    {
      this.registers, this.flash := registers, flash;
    }

    /** FLASH_OB_WRPConfig and its twins. A chip that is not ready leaves the
        registers alone; otherwise both are stored before the second wait, whose
        COMPLETE means that both hold what the call asked for. */
    method WrpConfig(mask: bv32, enable: bool) returns (status: Status)
      modifies this, flash`busy, flash`fault, flash`stores
      ensures Wait(old(flash.View())).0 != Complete ==>
              registers == old(registers) && (status, flash.View()) == Wait(old(flash.View()))
      ensures Wait(old(flash.View())).0 == Complete ==>
              (status, flash.View())
              == Wait(OptionStore(OptionStore(Wait(old(flash.View())).1, flash.hw), flash.hw))
      ensures status == Complete ==> Configured(old(registers), registers, mask, enable)
    {
      status := flash.WaitForLastOperation();
      if status == Complete {
        var target := NewRegisters(registers, mask, enable);
        var lower := flash.StoreOption(target.lower);
        var upper := flash.StoreOption(target.upper);
        registers := Bank(lower, upper);
        status := flash.WaitForLastOperation();
        if status == Complete {
          assert registers == target;
        }
      }
    }
  }
}
