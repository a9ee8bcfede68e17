/**
 * The relocation stream shared by the assembler's binary writer and the
 * relocation linker. A list of 16-bit offsets is written as the delta of
 * each offset from the previous one (the first from a starting position);
 * a delta is a run of 0xe nibbles, each worth 14, then one nibble below
 * 0xe holding the remainder; the stream ends with a 0xf nibble. Nibbles
 * are packed two per byte, high nibble first, and an odd final nibble is
 * padded with a zero.
 */
module Relocation {
  import opened Base

  type nibble = x: int | 0 <= x < 16

  /** A nibble that adds 14 to the pending delta. */
  const RUN: nibble := 0xe
  /** The nibble that ends the stream. */
  const END: nibble := 0xf

  /** `writeRelocationFor(delta)`: as many 0xe nibbles as 14 fits in `d`, then the remainder. */
  function DeltaNibbles(d: nat): seq<nibble>
    decreases d
  {
    if d >= 14 then [RUN] + DeltaNibbles(d - 14) else [d]
  }

  /** A delta is ⌊d/14⌋ nibbles 0xe, then `d mod 14`. */
  lemma {:induction false} DeltaNibblesRun(d: nat)
    ensures DeltaNibbles(d) == Repeat(RUN, d / 14) + [d % 14]
    decreases d
  {
    if d >= 14 {
      DeltaNibblesRun(d - 14);
      assert [RUN] + Repeat(RUN, (d - 14) / 14) == Repeat(RUN, d / 14);
    }
  }

  /** The 16-bit distance a `uint16_t` subtraction gives from `pos` to `offset`. */
  function Delta16(offset: u16, pos: u16): u16
  {
    (offset - pos) % 0x1_0000
  }

  /** Adding the delta to the previous offset gives the offset back, modulo 2^16. */
  lemma Delta16Adds(offset: u16, pos: u16)
    ensures (pos + Delta16(offset, pos)) % 0x1_0000 == offset
  {
    if offset >= pos {
      assert Delta16(offset, pos) == offset - pos;
    } else {
      assert Delta16(offset, pos) == offset - pos + 0x1_0000;
    }
  }

  /** The nibbles for a list of offsets, each as its 16-bit delta from the one before, the first from `pos`. */
  function OffsetNibbles(offsets: seq<u16>, pos: u16): seq<nibble>
  {
    if offsets == [] then []
    else DeltaNibbles(Delta16(offsets[0], pos)) + OffsetNibbles(offsets[1..], offsets[0])
  }

  /** The terminated nibble stream for `offsets`, starting from position 0. */
  function Stream(offsets: seq<u16>): seq<nibble>
  {
    OffsetNibbles(offsets, 0) + [END]
  }

  /** Two nibbles per byte, high nibble first; an odd last nibble is paired with 0. */
  function Pack(ns: seq<nibble>): (r: seq<byte>)
    ensures |r| == (|ns| + 1) / 2
  {
    if ns == [] then []
    else if |ns| == 1 then [ns[0] as int * 16]
    else [ns[0] as int * 16 + ns[1]] + Pack(ns[2..])
  }

  /** Byte `k` holds nibble `2k` in its high half and nibble `2k+1`, or 0 past the end, in its low half. */
  lemma {:induction false} PackBytes(ns: seq<nibble>)
    ensures forall k :: 0 <= k < |Pack(ns)| ==>
      Pack(ns)[k] == ns[2 * k] as int * 16 + (if 2 * k + 1 < |ns| then ns[2 * k + 1] else 0)
    decreases |ns|
  {
    if |ns| > 1 {
      PackBytes(ns[2..]);
      forall k | 1 <= k < |Pack(ns)|
        ensures Pack(ns)[k] == ns[2 * k] as int * 16 + (if 2 * k + 1 < |ns| then ns[2 * k + 1] else 0)
      {
        assert Pack(ns)[k] == Pack(ns[2..])[k - 1];
        assert ns[2 * k] == ns[2..][2 * (k - 1)];
        if 2 * k + 1 < |ns| {
          assert ns[2 * k + 1] == ns[2..][2 * (k - 1) + 1];
        }
      }
    }
  }

  /** Two more nibbles after an even number of them make one more byte. */
  lemma {:induction false} PackPair(ns: seq<nibble>, hi: nibble, lo: nibble)
    requires |ns| % 2 == 0
    ensures Pack(ns + [hi, lo]) == Pack(ns) + [hi as int * 16 + lo]
    decreases |ns|
  {
    if ns != [] {
      assert (ns + [hi, lo])[2..] == ns[2..] + [hi, lo];
      PackPair(ns[2..], hi, lo);
    }
  }

  /** Padding an odd number of nibbles with a zero packs the same as leaving the pad to `Pack`. */
  lemma {:induction false} PackPad(ns: seq<nibble>)
    requires |ns| % 2 == 1
    ensures Pack(ns + [0]) == Pack(ns)
    decreases |ns|
  {
    if |ns| > 1 {
      assert (ns + [0])[2..] == ns[2..] + [0];
      PackPad(ns[2..]);
    }
  }

  // --- Reading a stream back ----------------------------------------------------

  /** The nibbles of a byte sequence, high nibble first. */
  function Unpack(bs: seq<byte>): (r: seq<nibble>)
    ensures |r| == 2 * |bs|
  {
    if bs == [] then [] else [bs[0] / 16, bs[0] % 16] + Unpack(bs[1..])
  }

  /**
   * The offsets a nibble stream denotes, positions counted from `pos` with
   * 16-bit wrap-around, `acc` being the delta accumulated by 0xe nibbles so
   * far; `None` when the stream has no 0xf terminator. Nibbles after the
   * terminator are ignored.
   */
  function Decode(ns: seq<nibble>, pos: u16, acc: nat): Option<seq<u16>>
  {
    if ns == [] then None
    else if ns[0] == END then Some([])
    else if ns[0] == RUN then Decode(ns[1..], pos, acc + 14)
    else
      var next := (pos + acc + ns[0]) % 0x1_0000;
      match Decode(ns[1..], next, 0)
      case None => None
      case Some(rest) => Some([next] + rest)
  }

  /** Packing then unpacking gives the nibbles back, plus the zero pad when their number is odd. */
  lemma {:induction false} UnpackPack(ns: seq<nibble>)
    ensures Unpack(Pack(ns)) == if |ns| % 2 == 0 then ns else ns + [0]
    decreases |ns|
  {
    if |ns| >= 2 {
      UnpackPack(ns[2..]);
      assert ns == [ns[0], ns[1]] + ns[2..];
      assert Pack(ns)[1..] == Pack(ns[2..]);
    }
  }

  /** Decoding one delta's nibbles moves to the offset the delta reaches. */
  lemma {:induction false} DecodeDelta(d: nat, rest: seq<nibble>, pos: u16, acc: nat)
    ensures Decode(DeltaNibbles(d) + rest, pos, acc) ==
      var next := (pos + acc + d) % 0x1_0000;
      match Decode(rest, next, 0)
      case None => None
      case Some(tail) => Some([next] + tail)
    decreases d
  {
    var s := DeltaNibbles(d) + rest;
    if d >= 14 {
      assert s[0] == RUN && s[1..] == DeltaNibbles(d - 14) + rest;
      DecodeDelta(d - 14, rest, pos, acc + 14);
    } else {
      assert s[0] == d && s[1..] == rest;
    }
  }

  /** The stream for a list of offsets decodes to that list, whatever follows the terminator. */
  lemma {:induction false} DecodeOffsets(offsets: seq<u16>, pos: u16, tail: seq<nibble>)
    ensures Decode(OffsetNibbles(offsets, pos) + [END] + tail, pos, 0) == Some(offsets)
    decreases |offsets|
  {
    if offsets == [] {
      assert (OffsetNibbles(offsets, pos) + [END] + tail)[0] == END;
    } else {
      var d := Delta16(offsets[0], pos);
      var rest := OffsetNibbles(offsets[1..], offsets[0]) + [END] + tail;
      assert OffsetNibbles(offsets, pos) + [END] + tail == DeltaNibbles(d) + rest;
      DecodeDelta(d, rest, pos, 0);
      Delta16Adds(offsets[0], pos);
      DecodeOffsets(offsets[1..], offsets[0], tail);
      assert [offsets[0]] + offsets[1..] == offsets;
    }
  }

  /** Round trip: the packed stream of any offset list unpacks and decodes to that list. */
  lemma StreamRoundTrip(offsets: seq<u16>)
    ensures Decode(Unpack(Pack(Stream(offsets))), 0, 0) == Some(offsets)
  {
    UnpackPack(Stream(offsets));
    DecodeOffsets(offsets, 0, []);
    DecodeOffsets(offsets, 0, [0]);
    assert OffsetNibbles(offsets, 0) + [END] + [] == Stream(offsets);
  }
}
