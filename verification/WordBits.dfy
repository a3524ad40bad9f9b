/** The 32-bit words of the data EEPROM as four bytes, and the masks that clear
    one byte or two adjacent bytes of a word. */
module WordBits {

  function Byte0(w: bv32): bv8 { (w & 0xFF) as bv8 }
  function Byte1(w: bv32): bv8 { ((w >> 8) & 0xFF) as bv8 }
  function Byte2(w: bv32): bv8 { ((w >> 16) & 0xFF) as bv8 }
  function Byte3(w: bv32): bv8 { ((w >> 24) & 0xFF) as bv8 }

  /** The bytes of a word in memory order. */
  function Bytes(w: bv32): seq<bv8> {
    [Byte0(w), Byte1(w), Byte2(w), Byte3(w)]
  }

  function Word(b0: bv8, b1: bv8, b2: bv8, b3: bv8): bv32 {
    (b0 as bv32) | ((b1 as bv32) << 8) | ((b2 as bv32) << 16) | ((b3 as bv32) << 24)
  }

  lemma WordBytes(b0: bv8, b1: bv8, b2: bv8, b3: bv8)
    ensures Bytes(Word(b0, b1, b2, b3)) == [b0, b1, b2, b3]
  {
  }

  lemma ClearByte0(w: bv32)
    ensures Bytes(w & !0xFF) == Bytes(w)[0 := 0]
  {
  }

  lemma ClearByte1(w: bv32)
    ensures Bytes(w & !((0xFF as bv32) << 8)) == Bytes(w)[1 := 0]
  {
  }

  lemma ClearByte2(w: bv32)
    ensures Bytes(w & !((0xFF as bv32) << 16)) == Bytes(w)[2 := 0]
  {
  }

  lemma ClearByte3(w: bv32)
    ensures Bytes(w & !((0xFF as bv32) << 24)) == Bytes(w)[3 := 0]
  {
  }

  lemma ClearHalf0(w: bv32)
    ensures Bytes(w & !0xFFFF) == Bytes(w)[0 := 0][1 := 0]
  {
  }

  lemma ClearHalf1(w: bv32)
    ensures Bytes(w & !((0xFFFF as bv32) << 8)) == Bytes(w)[1 := 0][2 := 0]
  {
  }

  lemma ClearHalf2(w: bv32)
    ensures Bytes(w & !((0xFFFF as bv32) << 16)) == Bytes(w)[2 := 0][3 := 0]
  {
  }

  /** tmp &= ~(0xFF << (8 * k)), shift by shift: it clears byte k and no other. */
  method WithoutByte(w: bv32, k: nat) returns (r: bv32)
    requires k < 4
    ensures Bytes(r) == Bytes(w)[k := 0]
  {
    match k
    case 0 =>
      ClearByte0(w);
      r := w & !0xFF;
    case 1 =>
      ClearByte1(w);
      r := w & !((0xFF as bv32) << 8);
    case 2 =>
      ClearByte2(w);
      r := w & !((0xFF as bv32) << 16);
    case _ =>
      ClearByte3(w);
      r := w & !((0xFF as bv32) << 24);
  }

  /** tmp &= ~(0xFFFF << (8 * k)): it clears bytes k and k + 1 and no other. */
  method WithoutHalf(w: bv32, k: nat) returns (r: bv32)
    requires k < 3
    ensures Bytes(r) == Bytes(w)[k := 0][k + 1 := 0]
  {
    match k
    case 0 =>
      ClearHalf0(w);
      r := w & !0xFFFF;
    case 1 =>
      ClearHalf1(w);
      r := w & !((0xFFFF as bv32) << 8);
    case _ =>
      ClearHalf2(w);
      r := w & !((0xFFFF as bv32) << 16);
  }
}
