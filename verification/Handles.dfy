/** Statement handles: the connection number in the upper half of a 32-bit signed integer,
    the statement's slot in the lower half. */
module Handles {

  /** Limits `sqlo_init` imposes on the two tables. */
  const MAX_DB := 0x7fff
  const MAX_CURSORS := 0xffff

  /** The handle a client passes to the first `sqlo_open2`. */
  const STH_INIT := -1

  type int32 = x: int | -0x8000_0000 <= x < 0x8000_0000

  /** ENCODE_STH. The slot fits the lower half, so the bitwise or is a sum. */
  function Encode(slot: nat, dbh: nat): (sth: int32)
    requires slot <= MAX_CURSORS && dbh < MAX_DB
  {
    dbh * 0x1_0000 + slot
  }

  /** DECODE_STH: the low half of the two's-complement representation. */
  function DecodeSlot(sth: int32): nat {
    sth % 0x1_0000
  }

  /** DECODE_DBH: the arithmetic right shift rounds down, then the sign bits are masked. */
  function DecodeDbh(sth: int32): nat {
    (sth / 0x1_0000) % 0x8000
  }

  /** The macros are written with shifts and masks; on the ranges above they are the
      sum, remainder and quotient used here. */
  lemma BitwiseIsArithmetic(slot: bv32, dbh: bv32)
    requires slot <= 0xffff && dbh < 0x7fff
    ensures (dbh << 16) | slot == dbh * 0x1_0000 + slot
    ensures ((dbh << 16) | slot) & 0xffff == slot
    ensures (((dbh << 16) | slot) >> 16) & 0x7fff == dbh
  {
  }

  /** ... and so are the decoding macros, on every 32-bit pattern. */
  lemma DecodingIsArithmetic(x: bv32)
    ensures x & 0xffff == x % 0x1_0000
    ensures (x >> 16) & 0x7fff == (x / 0x1_0000) % 0x8000
  {
  }

  /** The pattern of a negative handle has the same quotient and remainder, its sign bit masked. */
  lemma TwosComplement(sth: int32)
    ensures var x := if sth < 0 then sth + 0x1_0000_0000 else sth;
      DecodeSlot(sth) == x % 0x1_0000 && DecodeDbh(sth) == (x / 0x1_0000) % 0x8000
  {
  }

  /** Encoding is never negative and decodes to what was encoded. */
  lemma RoundTrip(slot: nat, dbh: nat)
    requires slot <= MAX_CURSORS && dbh < MAX_DB
    ensures Encode(slot, dbh) >= 0
    ensures DecodeSlot(Encode(slot, dbh)) == slot
    ensures DecodeDbh(Encode(slot, dbh)) == dbh
  {
  }

  /** Two statements never share a handle. */
  lemma Injective(slot: nat, dbh: nat, slot': nat, dbh': nat)
    requires slot <= MAX_CURSORS && dbh < MAX_DB && slot' <= MAX_CURSORS && dbh' < MAX_DB
    requires Encode(slot, dbh) == Encode(slot', dbh')
    ensures slot == slot' && dbh == dbh'
  {
    RoundTrip(slot, dbh);
    RoundTrip(slot', dbh');
  }

  /** The values rejected whatever the tables hold: a handle decodes to a connection number no table
      can have exactly when its upper half, sign bit aside, is all ones. This covers
      STH_INIT and every negative status code, and no handle that was ever encoded. */
  lemma RejectedRange(sth: int32)
    ensures DecodeDbh(sth) >= MAX_DB <==> -0x1_0000 <= sth < 0 || 0x7fff_0000 <= sth
  {
  }
}
