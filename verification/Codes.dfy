/** Completion codes and the other constants several commands share. */
module Codes {
  import opened Bits

  const OUT_OF_SPACE_CC: u8 := 0xC4
  const INVALID_RESERVATION_CC: u8 := 0xC5
  const REQUEST_DATA_LENGTH_INVALID_CC: u8 := 0xC7
  const PARAMETER_OUT_OF_RANGE_CC: u8 := 0xC9
  const NOT_PRESENT_CC: u8 := 0xCB
  const INVALID_DATA_FIELD_CC: u8 := 0xCC
  const INSUFFICIENT_PRIVILEGE_CC: u8 := 0xD4

  /** The record id that asks for the last record, and that ends a chain of next ids. */
  const LAST_ID: u16 := 0xffff

  /** The letters that confirm an erase. */
  const CLR: seq<u8> := ['C' as u8, 'L' as u8, 'R' as u8]

  function Min(a: nat, b: nat): nat {
    if a < b then a else b
  }

  datatype Option<+T> = None | Some(value: T)

  /** The end of the slice `[offset:offset+count]` in eight bits. */
  function SliceEnd(offset: u8, count: u8): u8 {
    (offset as int + count) % 0x100
  }

  /** The bytes a read handler copies are `[offset:offset+count]`, the count first clipped
      where the eight-bit end passes the record's length.  The slice is in order exactly when
      offset plus count fits eight bits; otherwise the wrapped end lies below the offset, is
      not clipped, and the slice stops the server. */
  lemma SliceInOrder(offset: u8, count: u8, length: u8)
    requires offset < length
    ensures var clipped := if SliceEnd(offset, count) > length then length - offset else count;
            offset <= SliceEnd(offset, clipped) <==> offset + count <= 255
    ensures offset + count <= 255 ==>
              var clipped := if SliceEnd(offset, count) > length then length - offset else count;
              SliceEnd(offset, clipped) == Min(offset + count, length)
  {
  }
}
