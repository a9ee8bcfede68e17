/**
 * The assembler's output side: a 128-byte record buffer handed to the file
 * system when full, the 7-byte program header, the nibble writer for the
 * relocation streams and the symbol listing.
 */
module Output {
  import opened Base
  import opened Digits
  import opened Records
  import opened Relocation
  import Placement

  /** The size of a CP/M file record, and of the output buffer. */
  const RECORD_SIZE: nat := 128

  /** The byte a character is written as (`uint8_t` truncation). */
  function CharByte(c: char): byte
  {
    (c as int) % 0x100
  }

  /** The bytes of a string, one per character. */
  function Ascii(s: string): (r: seq<byte>)
    ensures |r| == |s|
  {
    if s == [] then [] else Ascii(s[..|s| - 1]) + [CharByte(s[|s| - 1])]
  }

  /** Byte k of `Ascii(s)` is character k. */
  lemma {:induction false} AsciiAt(s: string)
    ensures forall k :: 0 <= k < |s| ==> Ascii(s)[k] == CharByte(s[k])
    decreases |s|
  {
    if s != [] {
      AsciiAt(s[..|s| - 1]);
    }
  }

  /**
   * The program header: zero-page bytes used, pages of TPA used, the text
   * size little-endian, then a `JMP 0` whose operand the loader relocates.
   * Its length is the address the code is placed from.
   */
  function Header(zpUsage: byte, textUsage: u16): (h: seq<byte>)
    ensures |h| == Placement.START_ADDRESS
    ensures h[0] == zpUsage
    ensures h[1] == (textUsage + 255) / 256 % 256
    ensures textUsage <= 0xff00 ==> (h[1] as int - 1) * 256 < textUsage <= h[1] as int * 256
    ensures h[2] as int + 256 * (h[3] as int) == textUsage
    ensures h[4..] == [0x4c, 0, 0]
  {
    PagesWrap(textUsage);
    [zpUsage, (textUsage + 255) % 0x1_0000 / 256, textUsage % 256, textUsage / 256, 0x4c, 0, 0]
  }

  /** The 16-bit `(textUsage + 255) >> 8` is the page count rounded up, modulo 256. */
  lemma PagesWrap(t: u16)
    ensures (t + 255) % 0x1_0000 / 256 == (t + 255) / 256 % 256
    ensures t <= 0xff00 ==> ((t + 255) / 256 - 1) * 256 < t <= (t + 255) / 256 * 256
  {
    if t + 255 >= 0x1_0000 {
      assert (t + 255) / 256 == 256;
    }
  }

  /** What the hex printer's `address` holds after shifting `v` left by k nibbles (k < 4). */
  function Shifted(v: u16, k: nat): u16
    requires k < 4
  {
    if k == 0 then v
    else if k == 1 then v % 0x1000 * 0x10
    else if k == 2 then v % 0x100 * 0x100
    else v % 0x10 * 0x1000
  }

  /** Digit k of `v`, most significant first. */
  function HexNibble(v: u16, k: nat): (n: nat)
    requires k < 4
    ensures n < 16
  {
    if k == 0 then v / 0x1000
    else if k == 1 then v / 0x100 % 16
    else if k == 2 then v / 0x10 % 16
    else v % 16
  }

  /** After k shifts the top nibble is digit k, and one more shift gives the next step. */
  lemma ShiftedDigit(v: u16, k: nat)
    requires k < 4
    ensures Shifted(v, k) / 0x1000 == HexNibble(v, k)
    ensures k < 3 ==> Shifted(v, k) * 16 % 0x1_0000 == Shifted(v, k + 1)
  {
    // v is its four nibbles
    var n0, n1, n2, n3 := v / 0x1000, v / 0x100 % 16, v / 0x10 % 16, v % 16;
    assert v / 0x100 == n0 * 16 + n1;
    assert v / 0x10 == (n0 * 16 + n1) * 16 + n2;
    assert v == ((n0 * 16 + n1) * 16 + n2) * 16 + n3;
    if k == 0 {
      assert v % 0x1000 == (n1 * 16 + n2) * 16 + n3;
      WrapAt16(n0, ((n1 * 16 + n2) * 16 + n3) * 16);
    } else if k == 1 {
      assert v % 0x1000 == (n1 * 16 + n2) * 16 + n3;
      assert v % 0x100 == n2 * 16 + n3;
      assert Shifted(v, k) == n1 * 0x1000 + (n2 * 16 + n3) * 16;
      WrapAt16(n1, (n2 * 16 + n3) * 0x100);
    } else if k == 2 {
      assert v % 0x100 == n2 * 16 + n3;
      assert Shifted(v, k) == n2 * 0x1000 + n3 * 0x100;
      WrapAt16(n2, n3 * 0x1000);
    }
  }

  /** Whole multiples of 0x10000 vanish from a 16-bit result. */
  lemma WrapAt16(high: nat, low: nat)
    requires low < 0x1_0000
    ensures (high * 0x1_0000 + low) % 0x1_0000 == low
  {
  }

  /** Character k of `Hex16(v)` is the digit for nibble k. */
  lemma Hex16At(v: u16, k: nat)
    requires k < 4
    ensures Hex16(v)[k] == HexDigit(HexNibble(v, k))
  {
  }

  /** The symbol kind the listing shows: a symbol defined as another symbol shows that one's kind. */
  function ListedKind(rs: seq<Record>, s: nat): SymbolKind
    requires WellFormed(rs) && s < |rs| && rs[s].Symbol?
  {
    assert LocalOk(rs, s);
    match rs[s].variable
    case Some(v) => rs[v].kind
    case None => rs[s].kind
  }

  /** The address the listing shows: offset, plus the variable's offset, plus the text size for BSS. */
  function ListedAddress(rs: seq<Record>, s: nat, textUsage: u16): u16
    requires WellFormed(rs) && s < |rs| && rs[s].Symbol?
  {
    assert LocalOk(rs, s);
    var base := match rs[s].variable case Some(v) => rs[v].offset case None => 0;
    var bss := if ListedKind(rs, s) == Bss then textUsage else 0;
    (rs[s].offset + base + bss) % 0x1_0000
  }

  /** The first part of a listing line: the kind letter, a space and the address in four hex digits. */
  function AddressField(kind: char, address: u16): seq<byte>
  {
    [CharByte(kind), CharByte(' ')] + Ascii(Hex16(address))
  }

  /** The rest of a listing line: a space, the name, CR LF. */
  function NameField(name: string): seq<byte>
  {
    [CharByte(' ')] + Ascii(name) + [13, 10]
  }

  /** One line of the symbol listing. */
  function SymbolLine(rs: seq<Record>, s: nat, textUsage: u16): (line: seq<byte>)
    requires WellFormed(rs) && s < |rs| && rs[s].Symbol?
    ensures |line| == 9 + |rs[s].name|
  {
    AddressField(KindChar(ListedKind(rs, s)), ListedAddress(rs, s, textUsage)) + NameField(rs[s].name)
  }

  /** What record `s` contributes to the listing: its line when it is a named symbol, nothing otherwise. */
  function Entry(rs: seq<Record>, s: nat, textUsage: u16): seq<byte>
    requires WellFormed(rs) && s < |rs|
  {
    if rs[s].Symbol? && rs[s].name != [] then SymbolLine(rs, s, textUsage) else []
  }

  /** The lines for the named symbols from record `i` up to the end of the program. */
  function Listing(rs: seq<Record>, i: nat, textUsage: u16): seq<byte>
    requires WellFormed(rs) && i <= |rs|
    decreases |rs| - i
  {
    if i == |rs| || rs[i].Eof? then [] else Entry(rs, i, textUsage) + Listing(rs, i + 1, textUsage)
  }

  /** The value of four hex characters read back from the listing. */
  function HexField(bs: seq<byte>): nat
    requires |bs| == 4
  {
    var s := seq(4, k requires 0 <= k < 4 => bs[k] as char);
    if AllHex(s) then Value(s, 16) else 0
  }

  /** Reading a listing line back gives the letter, the address and the name that were listed. */
  lemma SymbolLineReadsBack(rs: seq<Record>, s: nat, textUsage: u16)
    requires WellFormed(rs) && s < |rs| && rs[s].Symbol?
    ensures var line := SymbolLine(rs, s, textUsage);
      line[0] == CharByte(KindChar(ListedKind(rs, s))) &&
      HexField(line[2..6]) == ListedAddress(rs, s, textUsage) &&
      line[7..|line| - 2] == Ascii(rs[s].name) &&
      line[|line| - 2..] == [13, 10]
  {
    var line := SymbolLine(rs, s, textUsage);
    var a := ListedAddress(rs, s, textUsage);
    var h := Hex16(a);
    var head := [CharByte(KindChar(ListedKind(rs, s))), CharByte(' ')];
    var name := Ascii(rs[s].name);
    assert line == (head + Ascii(h)) + ([CharByte(' ')] + name + [13, 10]);
    assert line[2..6] == Ascii(h);
    assert line[7..|line| - 2] == name;
    Hex16Value(a);
    HexAscii(h);
  }

  /** Hex digits survive the trip to bytes and back. */
  lemma {:induction false} HexAscii(h: string)
    requires |h| == 4 && AllHex(h)
    ensures seq(4, k requires 0 <= k < 4 => Ascii(h)[k] as char) == h
  {
    AsciiAt(h);
    forall k | 0 <= k < 4 ensures Ascii(h)[k] as char == h[k] {
      assert IsHexChar(h[k]);
    }
  }

  /** The nibbles of `ns` that already form whole bytes. */
  function Paired(ns: seq<nibble>): seq<nibble>
  {
    ns[..|ns| - |ns| % 2]
  }

  /** The relocation writer's pending byte: an odd last nibble shifted into the high half. */
  function Pending(ns: seq<nibble>): Option<byte>
  {
    if |ns| % 2 == 1 then Some(ns[|ns| - 1] as int * 16) else None
  }

  /** One more nibble either becomes pending or completes a byte with the pending one. */
  lemma NibbleStep(ns: seq<nibble>, n: nibble)
    ensures Pending(ns).None? ==> Paired(ns + [n]) == Paired(ns) && Pending(ns + [n]) == Some(n * 16)
    ensures Pending(ns).Some? ==>
      (Pending(ns + [n]) == None && Pack(Paired(ns + [n])) == Pack(Paired(ns)) + [Pending(ns).value + n])
  {
    if |ns| % 2 == 1 {
      assert Paired(ns + [n]) == Paired(ns) + [ns[|ns| - 1], n];
      PackPair(Paired(ns), ns[|ns| - 1], n);
    } else {
      assert (ns + [n])[..|ns|] == ns;
    }
  }

  /** An even stream is paired completely. */
  lemma PairedEven(ns: seq<nibble>)
    requires Pending(ns).None?
    ensures Paired(ns) == ns
  {
  }

  /** Padding an odd stream with 0 packs to the stream's own packing. */
  lemma {:induction false} PaddedPair(ns: seq<nibble>)
    requires Pending(ns).Some?
    ensures Paired(ns + [0]) == ns + [0] && Pack(ns + [0]) == Pack(ns)
  {
    PackPad(ns);
  }

  class OutputFile {
    /** `outputBuffer`: the record being filled. */
    const buffer: array<byte>
    /** `outputBufferPos`: bytes of `buffer` in use. */
    var pos: nat
    /** The records handed to the file system so far, one after the other. */
    var file: seq<byte>
    /** `relocationBuffer`: `None` for -1, or a pending nibble already shifted into the high half. */
    var relocationBuffer: Option<byte>
    /** The nibbles written since the relocation writer was reset, and where their bytes start. */
    ghost var nibbles: seq<nibble>
    ghost var mark: nat

    /** Everything written so far: the records on disk, then the used part of the buffer. */
    ghost var written: seq<byte>

    ghost predicate Valid()
      reads this, buffer
    {
      buffer.Length == RECORD_SIZE && pos <= RECORD_SIZE && |file| % RECORD_SIZE == 0 &&
      written == file + buffer[..pos]
    }

    /**
     * The relocation writer's state: the complete nibble pairs written since
     * the reset are packed after `mark`, and an odd last nibble waits in
     * `relocationBuffer`.
     */
    ghost predicate Relocating()
      reads this
    {
      mark <= |written| && written[mark..] == Pack(Paired(nibbles)) && relocationBuffer == Pending(nibbles)
    }

    constructor ()
      ensures Valid() && fresh(buffer) && file == [] && pos == 0 && relocationBuffer == None
    {
      buffer := new byte[RECORD_SIZE](_ => 0);
      pos := 0;
      file := [];
      relocationBuffer := None;
      nibbles := [];
      mark := 0;
      written := [];
    }

    /**
     * `flushOutputBuffer`: the whole buffer goes out as one record, whatever
     * `pos` says; closing a file this way leaves the buffer's stale tail at
     * its end.
     */
    method FlushOutputBuffer()
      requires Valid()
      modifies this
      ensures file == old(file) + buffer[..] && file == old(written) + buffer[old(pos)..]
      ensures pos == old(pos) && written == old(written)
      ensures relocationBuffer == old(relocationBuffer) && nibbles == old(nibbles) && mark == old(mark)
    {
      assert buffer[..] == buffer[..pos] + buffer[pos..];
      file := file + buffer[..];
    }

    /** Starting the next output file: nothing on disk yet; the buffer keeps its stale contents. */
    method StartFile()
      requires buffer.Length == RECORD_SIZE
      modifies this
      ensures Valid() && written == [] && pos == 0
      ensures relocationBuffer == old(relocationBuffer)
    {
      file := [];
      pos := 0;
      written := [];
    }

    /** `writeByte`: append one byte, handing the buffer to the file system first when it is full. */
    method WriteByte(b: byte)
      requires Valid()
      modifies this, buffer
      ensures Valid() && written == old(written) + [b]
      ensures relocationBuffer == old(relocationBuffer) && nibbles == old(nibbles) && mark == old(mark)
    {
      if pos == RECORD_SIZE {
        FlushOutputBuffer();
        pos := 0;
      }
      ghost var before := buffer[..pos];
      buffer[pos] := b;
      assert buffer[..pos + 1] == before + [b];
      pos := pos + 1;
      written := written + [b];
    }

    /** `writeHeader`: the seven header bytes. */
    method WriteHeader(zpUsage: byte, textUsage: u16)
      requires Valid()
      modifies this, buffer
      ensures Valid() && written == old(written) + Header(zpUsage, textUsage)
    {
      WriteBytes([zpUsage, (textUsage + 255) % 0x1_0000 / 256, textUsage % 256, textUsage / 256, 0x4c, 0, 0]);
    }

    /** `writeByte` for each of `bs` in turn. */
    method WriteBytes(bs: seq<byte>)
      requires Valid()
      modifies this, buffer
      ensures Valid() && written == old(written) + bs
    {
      for k := 0 to |bs|
        invariant Valid() && written == old(written) + bs[..k]
      {
        WriteByte(bs[k]);
        assert bs[..k + 1] == bs[..k] + [bs[k]];
        Associative(old(written), bs[..k], [bs[k]]);
      }
      assert bs[..|bs|] == bs;
    }

    // --- Relocation writer ------------------------------------------------------

    /** `resetRelocationWriter`: no pending nibble; the stream starts at the current end. */
    method ResetRelocationWriter()
      requires Valid()
      modifies this
      ensures Valid() && Relocating() && nibbles == [] && written == old(written)
    {
      relocationBuffer := None;
      nibbles := [];
      mark := |written|;
    }

    /** `writeRelocation`: hold a first nibble, or write it and the second as one byte. */
    method WriteRelocation(n: nibble)
      requires Valid() && Relocating()
      modifies this, buffer
      ensures Valid() && Relocating() && nibbles == old(nibbles) + [n] && mark == old(mark)
      ensures old(written) <= written
    {
      NibbleStep(nibbles, n);
      if relocationBuffer.None? {
        relocationBuffer := Some(n * 16);
      } else {
        ghost var w := written;
        WriteByte(relocationBuffer.value + n);
        relocationBuffer := None;
        assert written[mark..] == w[mark..] + [Pending(nibbles).value + n];
      }
      nibbles := nibbles + [n];
    }

    /** `writeRelocationFor(delta)`: runs of 0xe, then the remainder. */
    method WriteRelocationFor(delta: u16)
      requires Valid() && Relocating()
      modifies this, buffer
      ensures Valid() && Relocating() && nibbles == old(nibbles) + DeltaNibbles(delta) && mark == old(mark)
      ensures old(written) <= written
    {
      var d := delta;
      while d >= 0xe
        invariant Valid() && Relocating() && mark == old(mark)
        invariant old(nibbles) + DeltaNibbles(delta) == nibbles + DeltaNibbles(d)
        invariant old(written) <= written
      {
        assert DeltaNibbles(d) == [RUN] + DeltaNibbles(d - 0xe);
        WriteRelocation(0xe);
        d := d - 0xe;
      }
      WriteRelocation(d);
    }

    /** `flushRelocations`: a pending nibble goes out paired with 0, leaving the whole stream packed. */
    method FlushRelocations()
      requires Valid() && Relocating()
      modifies this, buffer
      ensures Valid() && Relocating() && mark == old(mark) && relocationBuffer == None
      ensures written[mark..] == Pack(old(nibbles))
      ensures old(written) <= written
    {
      if relocationBuffer.Some? {
        WriteRelocation(0);
        PaddedPair(old(nibbles));
      } else {
        PairedEven(nibbles);
      }
    }

    /**
     * The tail both relocation writers share: each address as its delta
     * from the one before (the first from `start`), then the 0xf terminator,
     * then the flush. The bytes are the linker's stream format.
     */
    method WriteRelocationList(addresses: seq<u16>, start: u16)
      requires Valid()
      modifies this, buffer
      ensures Valid() && relocationBuffer == None && old(written) <= written
      ensures written[|old(written)|..] == Pack(OffsetNibbles(addresses, start) + [END])
    {
      ResetRelocationWriter();
      WriteOffsets(addresses, start);
      assert nibbles == OffsetNibbles(addresses, start);
      WriteRelocation(END);
      ghost var stream := nibbles;
      FlushRelocations();
      assert written[mark..] == Pack(stream);
    }

    /** `writeRelocationFor` for each address's delta from the previous one, the first from `start`. */
    method WriteOffsets(addresses: seq<u16>, start: u16)
      requires Valid() && Relocating()
      modifies this, buffer
      ensures Valid() && Relocating() && mark == old(mark) && old(written) <= written
      ensures nibbles == old(nibbles) + OffsetNibbles(addresses, start)
    {
      var last := start;
      for k := 0 to |addresses|
        invariant Valid() && Relocating() && mark == old(mark) && old(written) <= written
        invariant nibbles + OffsetNibbles(addresses[k..], last) == old(nibbles) + OffsetNibbles(addresses, start)
      {
        OffsetNibblesFrom(addresses, k, last);
        ghost var before := nibbles;
        WriteRelocationFor(Delta16(addresses[k], last));
        Associative(before, DeltaNibbles(Delta16(addresses[k], last)), OffsetNibbles(addresses[k + 1..], addresses[k]));
        last := addresses[k];
      }
      assert addresses[|addresses|..] == [];
    }

    /** The nibbles from offset `k` on are offset `k`'s delta, then the rest measured from offset `k`. */
    static lemma {:induction false} OffsetNibblesFrom(addresses: seq<u16>, k: nat, last: u16)
      requires k < |addresses|
      ensures OffsetNibbles(addresses[k..], last)
        == DeltaNibbles(Delta16(addresses[k], last)) + OffsetNibbles(addresses[k + 1..], addresses[k])
    {
      assert addresses[k..][1..] == addresses[k + 1..];
    }

    // --- Symbol listing --------------------------------------------------------

    /** The four hex digits of `v`, by the shift-and-mask loop. */
    method WriteHex16(v: u16)
      requires Valid()
      modifies this, buffer
      ensures Valid() && written == old(written) + Ascii(Hex16(v))
    {
      var address := v;
      ghost var h := Hex16(v);
      for k := 0 to 4
        invariant Valid() && written == old(written) + Ascii(h[..k])
        invariant k < 4 ==> address == Shifted(v, k)
      {
        ShiftedDigit(v, k);
        Hex16At(v, k);
        ghost var w := written;
        ghost var n := address / 0x1000;
        assert n == HexNibble(v, k) && n % 16 == n;
        assert HexChars[address / 0x1000 % 16] == h[k];
        WriteByte(CharByte(HexChars[address / 0x1000 % 16]));
        assert h[..k + 1][..k] == h[..k];
        Associative(old(written), Ascii(h[..k]), [CharByte(h[k])]);
        address := (address as int * 16) % 0x1_0000;
      }
      assert Hex16(v)[..4] == Hex16(v);
    }

    /** Every byte of `s`, in order. */
    method WriteString(s: string)
      requires Valid()
      modifies this, buffer
      ensures Valid() && written == old(written) + Ascii(s)
    {
      for k := 0 to |s|
        invariant Valid() && written == old(written) + Ascii(s[..k])
      {
        WriteByte(CharByte(s[k]));
        assert s[..k + 1][..k] == s[..k];
        Associative(old(written), Ascii(s[..k]), [CharByte(s[k])]);
      }
      assert s[..|s|] == s;
    }

    /** The listing line for symbol `s`. */
    method WriteSymbolLine(rs: seq<Record>, s: nat, textUsage: u16)
      requires Valid() && WellFormed(rs) && s < |rs| && rs[s].Symbol?
      modifies this, buffer
      ensures Valid() && written == old(written) + SymbolLine(rs, s, textUsage)
    {
      WriteAddressField(KindChar(ListedKind(rs, s)), ListedAddress(rs, s, textUsage));
      WriteNameField(rs[s].name);
      Associative(old(written), AddressField(KindChar(ListedKind(rs, s)), ListedAddress(rs, s, textUsage)),
        NameField(rs[s].name));
    }

    /** The kind letter, a space, then the address by the hex printer. */
    method WriteAddressField(kind: char, address: u16)
      requires Valid()
      modifies this, buffer
      ensures Valid() && written == old(written) + AddressField(kind, address)
    {
      WriteBytes([CharByte(kind), CharByte(' ')]);
      WriteHex16(address);
      Associative(old(written), [CharByte(kind), CharByte(' ')], Ascii(Hex16(address)));
    }

    /** A space, the name byte by byte, then CR LF. */
    method WriteNameField(name: string)
      requires Valid()
      modifies this, buffer
      ensures Valid() && written == old(written) + NameField(name)
    {
      WriteByte(CharByte(' '));
      WriteString(name);
      Associative(old(written), [CharByte(' ')], Ascii(name));
      WriteBytes([13, 10]);
      Associative(old(written), [CharByte(' ')] + Ascii(name), [13, 10]);
    }

    /** One record's share of the listing. */
    method WriteEntry(rs: seq<Record>, s: nat, textUsage: u16)
      requires Valid() && WellFormed(rs) && s < |rs|
      modifies this, buffer
      ensures Valid() && written == old(written) + Entry(rs, s, textUsage)
    {
      if rs[s].Symbol? && rs[s].name != [] {
        WriteSymbolLine(rs, s, textUsage);
      } else {
        assert old(written) + [] == written;
      }
    }

    /** `writeSymbols`: one line per named symbol up to the end-of-file record, then ^Z. */
    method WriteSymbols(rs: seq<Record>, textUsage: u16)
      requires Valid() && WellFormed(rs)
      modifies this, buffer
      ensures Valid() && written == old(written) + Listing(rs, 0, textUsage) + [0x1a]
    {
      ghost var goal := old(written) + Listing(rs, 0, textUsage);
      var i := 0;
      while i < |rs| && !rs[i].Eof?
        invariant i <= |rs| && Valid()
        invariant goal == written + Listing(rs, i, textUsage)
        decreases |rs| - i
      {
        ghost var w := written;
        WriteEntry(rs, i, textUsage);
        Associative(w, Entry(rs, i, textUsage), Listing(rs, i + 1, textUsage));
        i := i + 1;
      }
      assert Listing(rs, i, textUsage) == [];
      WriteByte(0x1a);
    }
  }
}
