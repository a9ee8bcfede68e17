/**
 * The file-system formatter's arithmetic: the hex and decimal printers,
 * the disk geometry taken from the drive's CP/M disk parameter block, and
 * the loop that fills the directory area with 0xE5. Console output is the
 * string a printer returns; the BIOS's sector writes are a returned list.
 * On the 6502 target `int` is 16 bits wide, so 16-bit unsigned operands
 * stay 16-bit unsigned through the arithmetic.
 */
module Mkfs {
  import opened Base
  import opened Digits

  // --- printhex4, printhex8, printhex16 -----------------------------------------

  /** `printhex4`: the low nibble as '0'-'9' or 'a'-'f'. */
  function PrintHex4(nibble: byte): (c: char)
    ensures c == HexDigit(nibble % 16)
  {
    var n := nibble % 16;
    if n < 10 then ('0' as int + n) as char else ('a' as int - 10 + n) as char
  }

  /** `printhex8`: the high nibble, then the low one. */
  function PrintHex8(b: byte): (s: string)
    ensures s == [HexDigit(b / 16), HexDigit(b % 16)]
  {
    [PrintHex4(b / 16), PrintHex4(b)]
  }

  /** `printhex16`: the high byte, then the low one: four digits that read back as `n`. */
  function PrintHex16(n: u16): (s: string)
    ensures s == Hex16(n)
    ensures DigitsIn(s, 16) && Value(s, 16) == n
  {
    Hex16Value(n);
    ByteNibbles(n);
    PrintHex8(n / 256) + PrintHex8(n % 256)
  }

  /** The nibbles of the high and the low byte are the four nibbles of `n`. */
  lemma ByteNibbles(n: u16)
    ensures n / 256 / 16 == n / 0x1000 && n / 256 % 16 == n / 0x100 % 16
    ensures n % 256 / 16 == n / 0x10 % 16 && n % 256 % 16 == n % 16
  {
    var h, l := n / 256, n % 256;
    DivisionOf(n, 0x1000, h / 16, 256 * (h % 16) + l);
    DivisionOf(n, 16, 16 * h + l / 16, l % 16);
    DivisionOf(n / 16, 16, h, l / 16);
  }

  // --- printip and printi ------------------------------------------------------------

  /** The character `cpm_conout('0' + d)` prints: the sum truncated to a byte. */
  function DigitOut(d: byte): char
  {
    (('0' as int + d) % 0x100) as char
  }

  /**
   * What `printip` prints from the state (`v`, `precision`, `zerosup`):
   * each place gives its digit, or, while zeros are still suppressed and
   * it is not the last place, a space when padding and nothing otherwise.
   */
  function Printed(v: nat, pad: bool, precision: nat, zerosup: bool): string
    decreases precision
  {
    if precision == 0 then []
    else
      var d := v / precision % 0x100;
      var rest := precision / 10;
      if rest != 0 && zerosup && d == 0 then (if pad then " " else "") + Printed(v % precision, pad, rest, true)
      else [DigitOut(d)] + Printed(v % precision, pad, rest, false)
  }

  /** `printip`: the digits of `v` place by place from `precision` down. */
  method PrintIp(v: u32, pad: bool, precision: u32) returns (out: string)
    ensures out == Printed(v, pad, precision, true)
  {
    // both only shrink, so they stay within their 32 bits
    var value: nat, place: nat, zerosup := v, precision, true;
    out := [];
    while place != 0
      invariant out + Printed(value, pad, place, zerosup) == Printed(v, pad, precision, true)
      decreases place
    {
      var d: byte := (value as int / place as int) % 0x100;
      ghost var piece := if place / 10 != 0 && zerosup && d == 0 then (if pad then " " else "") else [DigitOut(d)];
      ghost var out0 := out;
      value := value % place;
      place := place / 10;
      if place != 0 && zerosup && d == 0 {
        if pad {
          out := out + [' '];
        }
      } else {
        zerosup := false;
        out := out + [DigitOut(d)];
      }
      assert out == out0 + piece;
      Associative(out0, piece, Printed(value, pad, place, zerosup));
    }
  }

  /** `printi`: `printip` unpadded from the billions place. */
  method PrintI(v: u32) returns (out: string)
    ensures IsDecimalOf(out, v)
  {
    out := PrintIp(v, false, 1000000000);
    assert Pow10(9) == 1000000000;
    PrintedDecimal(v, 9);
  }

  /** 10 to the power `k`. */
  function Pow10(k: nat): (p: nat)
    ensures p >= 1
  {
    if k == 0 then 1 else 10 * Pow10(k - 1)
  }

  /** The number of decimal digits of `n` (none for 0). */
  function DecimalLength(n: nat): nat
  {
    if n == 0 then 0 else 1 + DecimalLength(n / 10)
  }

  /** `10^k` has `k + 1` digits. */
  lemma {:induction false} Pow10Length(k: nat)
    ensures DecimalLength(Pow10(k)) == k + 1
  {
    if k > 0 {
      Pow10Length(k - 1);
      assert Pow10(k) / 10 == Pow10(k - 1);
    }
  }

  predicate AllDigits(s: string)
  {
    forall i :: 0 <= i < |s| ==> IsDigit(s[i])
  }

  /** Once zeros are no longer suppressed every place prints its digit: `k + 1` digits. */
  lemma {:induction false} PrintedShape(v: nat, pad: bool, k: nat)
    requires v < Pow10(k + 1)
    ensures var s := Printed(v, pad, Pow10(k), false); |s| == k + 1 && AllDigits(s)
    decreases k
  {
    var d, r := PlaceDigit(v, k);
    if k > 0 {
      PrintedShape(r, pad, k - 1);
    }
  }

  /** Those digits, after any digit prefix, continue the prefix's value by `v`. */
  lemma {:induction false} PrintedAllPlaces(pre: string, v: nat, pad: bool, k: nat)
    requires AllDigits(pre) && v < Pow10(k + 1)
    ensures var s := Printed(v, pad, Pow10(k), false);
      AllDigits(pre + s) && Value(pre + s, 10) == Value(pre, 10) * Pow10(k + 1) + v
    decreases k
  {
    var p := Pow10(k);
    var d, r := PlaceDigit(v, k);
    var c := DigitOut(d);
    assert IsDigit(c) && HexValue(c) == d;
    var s := Printed(v, pad, p, false);
    PrintedShape(v, pad, k);
    DigitsAppend(pre, s);
    DigitsAppend(pre, [c]);
    ValueSnoc(pre, c, 10);
    if k == 0 {
      assert s == [c];
    } else {
      var rest := Printed(r, pad, Pow10(k - 1), false);
      assert s == [c] + rest;
      PrintedAllPlaces(pre + [c], r, pad, k - 1);
      Associative(pre, [c], rest);
      Recombine(Value(pre, 10), d, p, r, Value(pre + [c], 10));
    }
  }

  /** Digits after digits are digits. */
  lemma DigitsAppend(a: string, b: string)
    requires AllDigits(a) && AllDigits(b)
    ensures AllDigits(a + b)
  {
  }

  /** The digit at place `10^k` of a `v` below `10^(k+1)`, and what is left below it. */
  lemma PlaceDigit(v: nat, k: nat) returns (d: nat, r: nat)
    requires v < Pow10(k + 1)
    ensures d == v / Pow10(k) && d < 10 && v / Pow10(k) % 0x100 == d && DigitOut(d) == HexDigit(d)
    ensures r == v % Pow10(k) && v == d * Pow10(k) + r && r < Pow10(k)
    ensures k > 0 ==> Pow10(k) / 10 == Pow10(k - 1)
  {
    var p := Pow10(k);
    d, r := v / p, v % p;
    QuotientBelow(v, p, 10);
    if k > 0 {
      DivisionOf(p, 10, Pow10(k - 1), 0);
    }
  }

  /** Shifting a prefix one place further and adding the digit's place value. */
  lemma Recombine(a: nat, d: nat, p: nat, r: nat, e: nat)
    requires e == a * 10 + d
    ensures e * p + r == a * (10 * p) + (d * p + r)
  {
  }

  /** Unpadded, `printip` prints the decimal representation of any `v` below ten times a power-of-ten precision. */
  lemma {:induction false} PrintedDecimal(v: nat, k: nat)
    requires v < Pow10(k + 1)
    ensures IsDecimalOf(Printed(v, false, Pow10(k), true), v)
    decreases k
  {
    var p := Pow10(k);
    var d, r := PlaceDigit(v, k);
    if k > 0 && d == 0 {
      assert Printed(v, false, p, true) == Printed(r, false, Pow10(k - 1), true);
      PrintedDecimal(v, k - 1);
    } else {
      PrintedLeadingDigit(v, k);
    }
  }

  /** When the first place prints a digit, all places do, and the first is not a zero unless it is the only one. */
  lemma {:induction false} PrintedLeadingDigit(v: nat, k: nat)
    requires v < Pow10(k + 1) && (k == 0 || v / Pow10(k) != 0)
    ensures IsDecimalOf(Printed(v, false, Pow10(k), true), v)
  {
    var p := Pow10(k);
    var d, r := PlaceDigit(v, k);
    var s := Printed(v, false, p, false);
    assert Printed(v, false, p, true) == s;
    assert s[0] == DigitOut(d);
    PrintedShape(v, false, k);
    PrintedAllPlaces([], v, false, k);
    assert [] + s == s;
  }

  /** Zero prints as "0": the last place is never suppressed. */
  lemma {:induction false} PrintedZero(k: nat)
    ensures Printed(0, false, Pow10(k), true) == "0"
    decreases k
  {
    if k > 0 {
      assert Pow10(k) / 10 == Pow10(k - 1);
      PrintedZero(k - 1);
    }
  }

  /** Padded, every place prints one character, so the width is the number of digits of `precision`. */
  lemma {:induction false} PaddedWidth(v: nat, precision: nat, zerosup: bool)
    ensures |Printed(v, true, precision, zerosup)| == DecimalLength(precision)
    decreases precision
  {
    if precision > 0 {
      PaddedWidth(v % precision, precision / 10, true);
      PaddedWidth(v % precision, precision / 10, false);
    }
  }

  /** After the first digit, padding makes no difference. */
  lemma {:induction false} PadIrrelevant(v: nat, precision: nat)
    ensures Printed(v, true, precision, false) == Printed(v, false, precision, false)
    decreases precision
  {
    if precision > 0 {
      PadIrrelevant(v % precision, precision / 10);
    }
  }

  /** Padded, the leading zeros become spaces in front of the unpadded digits. */
  lemma {:induction false} PaddedIsSpaced(v: nat, k: nat)
    requires v < Pow10(k + 1)
    ensures var u := Printed(v, false, Pow10(k), true);
      |u| <= k + 1 && Printed(v, true, Pow10(k), true) == Repeat(' ', k + 1 - |u|) + u
    decreases k
  {
    var p := Pow10(k);
    var d, r := PlaceDigit(v, k);
    if k > 0 && d == 0 {
      var q := Pow10(k - 1);
      assert r == v;
      assert Printed(v, false, p, true) == Printed(v, false, q, true);
      assert Printed(v, true, p, true) == " " + Printed(v, true, q, true);
      PaddedIsSpaced(v, k - 1);
      var u := Printed(v, false, q, true);
      assert Repeat(' ', k + 1 - |u|) == " " + Repeat(' ', k - |u|);
    } else {
      assert Printed(v, true, p, true) == Printed(v, true, p, false);
      assert Printed(v, false, p, true) == Printed(v, false, p, false);
      PadIrrelevant(v, p);
      PrintedShape(v, false, k);
    }
  }

  // --- geometry ----------------------------------------------------------------

  /** The disk parameter block fields the formatter reads; the others are not used. */
  datatype Dpb = Dpb(bsh: byte, dsm: u16, drm: u16, off: u16)

  /** 2 to the power `k`. */
  function Pow2(k: nat): (p: nat)
    ensures p >= 1
  {
    if k == 0 then 1 else 2 * Pow2(k - 1)
  }

  /**
   * A valid CP/M 2.2 block shift: blocks of 1K to 16K, and 128-byte blocks
   * for shifts below 3. A shift of 8 would overflow the 16-bit `int`.
   */
  predicate ValidShift(bsh: byte)
  {
    bsh <= 7
  }

  /** `blocksize = 1 << (bsh + 7)`. */
  function BlockSize(bsh: byte): (r: u16)
    requires ValidShift(bsh)
    ensures r == Pow2(bsh + 7) && r % 128 == 0 && 128 <= r <= 0x4000
  {
    BlockSizeBounds(bsh);
    assert 128 * Pow2(bsh) % 128 == 0;
    Pow2(bsh + 7)
  }

  /** A block of `2^(bsh+7)` bytes is `2^bsh` records of 128 bytes. */
  lemma {:induction false} BlockSizeBounds(bsh: nat)
    requires bsh <= 7
    ensures Pow2(bsh + 7) == 128 * Pow2(bsh) && 1 <= Pow2(bsh) <= 128
    decreases bsh
  {
    if bsh > 0 {
      BlockSizeBounds(bsh - 1);
    } else {
      assert Pow2(7) == 128;
    }
  }

  /** `blockcount = dsm + 1` in 16-bit unsigned arithmetic. */
  function BlockCount(dsm: u16): (r: u16)
    ensures dsm < 0xffff ==> r == dsm + 1
  {
    (dsm + 1) % 0x1_0000
  }

  /** `directoryblocks` as the code computes it: the byte size `(drm + 1) * 32` wraps at 16 bits. */
  function DirectoryBlocksAsWritten(drm: u16, bsh: byte): (r: u16)
    requires ValidShift(bsh)
    ensures r * BlockSize(bsh) <= (drm + 1) * 32 % 0x1_0000 < (r + 1) * BlockSize(bsh)
  {
    var size: nat := (drm + 1) * 32 % 0x1_0000;
    var b: nat := BlockSize(bsh);
    QuotientAtMost(size, b);
    var q: nat := size / b;
    FloorBounds(size, b);
    NextMultiple(q, b);
    q
  }

  /** The directory's size in blocks: `drm + 1` entries of 32 bytes. */
  function DirectoryBlocks(drm: u16, bsh: byte): (r: u16)
    requires ValidShift(bsh)
    ensures r * BlockSize(bsh) <= (drm + 1) * 32 < (r + 1) * BlockSize(bsh)
  {
    var size: nat := (drm + 1) * 32;
    var b: nat := BlockSize(bsh);
    QuotientAtMost(size, b);
    var q: nat := size / b;
    MulMonotone(128, b, 0x1_0000);
    QuotientBelow(size, b, 0x1_0000);
    FloorBounds(size, b);
    NextMultiple(q, b);
    q
  }

  /** Directories below 2048 entries fit the 16-bit product, and the two agree. */
  lemma AsWrittenAgreesBelow(drm: u16, bsh: byte)
    requires ValidShift(bsh) && drm < 2047
    ensures DirectoryBlocksAsWritten(drm, bsh) == DirectoryBlocks(drm, bsh)
  {
  }

  /** 2048 entries of 32 bytes with 4K blocks: the product wraps to 0, so no directory block is formatted instead of 16. */
  lemma DirectoryBlocksWrap()
    ensures DirectoryBlocksAsWritten(2047, 5) == 0
    ensures DirectoryBlocks(2047, 5) == 16
  {
    assert BlockSize(5) == 4096;
  }

  /** The reported size in kilobytes: the blocks, plus the reserved sectors at 8 per kilobyte. */
  function TotalKb(blockcount: u16, blocksize: u16, reservedsectors: u16): (r: u32)
    ensures r * 1024 <= blockcount * blocksize + reservedsectors * 128 < r * 1024 + 2048
  {
    ProductBelow(blockcount, blocksize);
    KbBounds(blockcount * blocksize, reservedsectors);
    blockcount * blocksize / 1024 + reservedsectors / 8
  }

  /** Two 16-bit factors give a product that fits 32 bits. */
  lemma ProductBelow(x: u16, y: u16)
    ensures 0 <= x * y < 0x1_0000_0000
  {
    assert 0 <= x * y <= 0xffff * y by {
      MulMonotone(0, x, y);
      MulMonotone(x, 0xffff, y);
    }
  }

  /** Whole kilobytes of `bytes` plus whole kilobytes of `sectors` 128-byte sectors, and what each leaves over. */
  lemma KbBounds(bytes: nat, sectors: nat)
    requires bytes < 0x1_0000_0000 && sectors < 0x1_0000
    ensures var r := bytes / 1024 + sectors / 8;
      0 <= r < 0x1_0000_0000 && r * 1024 <= bytes + sectors * 128 < r * 1024 + 2048
  {
    var blockKb, sectorKb := bytes / 1024, sectors / 8;
    QuotientAtMost(bytes, 1024);
    QuotientAtMost(sectors, 8);
    QuotientBelow(bytes, 1024, 0x40_0000);
    FloorBounds(bytes, 1024);
    FloorBounds(sectors, 8);
    assert (blockKb + sectorKb) * 1024 == blockKb * 1024 + sectorKb * 8 * 128;
  }

  // --- formatting --------------------------------------------------------------

  /**
   * One `cpm_bios_write` of the DMA buffer (128 bytes of 0xE5) to `sector`.
   * `flush` is its argument 1: a directory write, which the BIOS must put on
   * the disk at once rather than hold in a blocking buffer (argument 0).
   */
  datatype Write = Write(sector: nat, flush: bool)

  /** The buffer every write sends: `memset(dma, 0xe5, 128)`. */
  function Filler(): (r: seq<byte>)
    ensures |r| == 128 && forall k :: 0 <= k < 128 ==> r[k] == 0xe5
  {
    Repeat(0xe5, 128)
  }

  /** Ordinary writes of `count` consecutive sectors from `start`. */
  function Sweep(start: nat, count: nat): (r: seq<Write>)
    ensures |r| == count && forall k :: 0 <= k < count ==> r[k] == Write(start + k, false)
  {
    seq(count, k requires 0 <= k < count => Write(start + k, false))
  }

  /** A completed fill: every sector in turn, then the last one selected again, flushed. */
  function DirectoryWrites(reserved: nat, n: nat, selected: nat): (r: seq<Write>)
    ensures |r| == n + 1 && r[..n] == Sweep(reserved, n) && r[n].flush
  {
    Sweep(reserved, n) + [Write(if n == 0 then selected else reserved + n - 1, true)]
  }

  /** The sectors of a drive's directory area: its blocks times the sectors in a block. */
  function DirectorySectors(dpb: Dpb): (r: nat)
    requires ValidShift(dpb.bsh)
    ensures r * 128 <= (dpb.drm + 1) * 32 < r * 128 + BlockSize(dpb.bsh)
    ensures r * 128 % BlockSize(dpb.bsh) == 0
  {
    var blocks, size := DirectoryBlocks(dpb.drm, dpb.bsh), BlockSize(dpb.bsh);
    var perBlock := size / 128;
    DivisionOf(size, 128, perBlock, 0);
    MulMonotone(0, blocks, perBlock);
    SectorsOfBlocks(blocks, perBlock, size);
    NextMultiple(blocks, size);
    blocks * perBlock
  }

  /** Whole blocks of `perBlock` sectors hold `blocks` times the block size. */
  lemma SectorsOfBlocks(blocks: nat, perBlock: nat, size: nat)
    requires size > 0 && size == perBlock * 128
    ensures blocks * perBlock * 128 == blocks * size && blocks * size % size == 0
  {
    assert blocks * perBlock * 128 == blocks * (perBlock * 128);
    DivisionOf(blocks * size, size, blocks, 0);
  }

  /**
   * The directory fill: `blocksize / 128` sectors per directory block, from
   * `reserved` on; a write that reports an error stops with "Disk error".
   * Afterwards the last sector selected is written again with argument 1,
   * which forces it to the disk; with no block to write, that is whichever sector the
   * BIOS had selected before (`selected`).
   */
  method FormatDirectory(reserved: u16, directoryblocks: u16, blocksize: u16, failing: set<nat>, selected: nat)
    returns (st: Status, writes: seq<Write>)
    requires blocksize / 128 < 0x100
    ensures var n := directoryblocks * (blocksize / 128);
      st.Ok? <==> forall s :: reserved <= s < reserved + n ==> s !in failing
    ensures var n := directoryblocks * (blocksize / 128);
      st.Ok? ==> writes == DirectoryWrites(reserved, n, selected)
    ensures var n := directoryblocks * (blocksize / 128);
      st.Fatal? ==> (st.message == "Disk error" && 0 < |writes| <= n && writes == Sweep(reserved, |writes|) &&
        reserved + |writes| - 1 in failing && forall s :: reserved <= s < reserved + |writes| - 1 ==> s !in failing)
  {
    var perBlock := blocksize / 128;
    var sector: nat := reserved;
    var blocks := directoryblocks;
    var last := selected;
    ghost var done: nat := 0;
    writes := [];
    while blocks != 0
      invariant done + blocks == directoryblocks
      invariant sector == reserved + done * perBlock
      invariant writes == Sweep(reserved, sector - reserved)
      invariant last == if sector == reserved then selected else sector - 1
      invariant forall s :: reserved <= s < sector ==> s !in failing
      decreases blocks
    {
      blocks := blocks - 1;
      var i: nat := 0;
      while i < perBlock
        invariant i <= perBlock && sector == reserved + done * perBlock + i
        invariant writes == Sweep(reserved, sector - reserved)
        invariant last == if sector == reserved then selected else sector - 1
        invariant forall s :: reserved <= s < sector ==> s !in failing
      {
        last := sector;
        writes := writes + [Write(sector, false)];
        if sector in failing {
          WithinSweep(done, directoryblocks, perBlock, i);
          return Fatal("Disk error"), writes;
        }
        sector := sector + 1;
        i := i + 1;
      }
      NextMultiple(done, perBlock);
      done := done + 1;
    }
    writes := writes + [Write(last, true)];
    st := Ok;
  }

  /** The sectors of the blocks done so far, plus one more block's. */
  lemma NextMultiple(done: nat, perBlock: nat)
    ensures done * perBlock + perBlock == (done + 1) * perBlock
  {
  }

  /** A sector inside block `done` of `total` lies before the end of the sweep. */
  lemma WithinSweep(done: nat, total: nat, perBlock: nat, i: nat)
    requires done < total && i < perBlock
    ensures done * perBlock + i < total * perBlock
  {
    NextMultiple(done, perBlock);
    MulMonotone(done + 1, total, perBlock);
  }

  /**
   * `main` past the report and the confirmation: the command line must name
   * a drive and no file, the drive must exist, then the directory area is
   * formatted. `drives` is what `cpm_bios_seldsk` finds for each drive.
   */
  method Format(dr: byte, f0: char, drives: map<nat, Dpb>, failing: set<nat>, selected: nat)
    returns (st: Status, writes: seq<Write>)
    requires forall d :: d in drives ==> ValidShift(drives[d].bsh)
    ensures dr == 0 || f0 != ' ' ==> st == Fatal("syntax: mkfs <drive>") && writes == []
    ensures dr != 0 && f0 == ' ' && dr - 1 !in drives ==> st == Fatal("that drive does not exist") && writes == []
    ensures dr != 0 && f0 == ' ' && dr - 1 in drives ==>
      var dpb := drives[dr - 1];
      var n := DirectorySectors(dpb);
      (st.Ok? ==> writes == DirectoryWrites(dpb.off, n, selected)) &&
      (st.Ok? <==> forall s :: dpb.off <= s < dpb.off + n ==> s !in failing)
  {
    if dr == 0 || f0 != ' ' {
      return Fatal("syntax: mkfs <drive>"), [];
    }
    if dr - 1 !in drives {
      return Fatal("that drive does not exist"), [];
    }
    var dpb := drives[dr - 1];
    var blocksize := BlockSize(dpb.bsh);
    var reservedsectors := dpb.off;
    var directoryblocks := DirectoryBlocks(dpb.drm, dpb.bsh);
    assert blocksize / 128 < 0x100;
    st, writes := FormatDirectory(reservedsectors, directoryblocks, blocksize, failing, selected);
  }
}
