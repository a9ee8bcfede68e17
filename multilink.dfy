/**
 * The relocation linker. The same program is linked three times: once as
 * the core image, once with its zero page moved and once with its memory
 * moved. Wherever the zero-page image differs from the core a zero-page
 * address must be relocated, and likewise for memory; the two offset
 * lists are appended to the core as nibble streams (the format the
 * assembler writes too), and the header's TPA byte is raised to cover them.
 * Files are byte sequences here; reading and writing them is left out.
 */
module Multilink {
  import opened Base
  import opened Relocation

  // --- compare -----------------------------------------------------------------

  /** What `istream::get` gives as a `uint8_t` at `pos`: the byte, or EOF (-1) truncated to 0xff. */
  function Get(f: seq<byte>, pos: nat): byte
  {
    if pos < |f| then f[pos] else 0xff
  }

  /** The offsets below `n` where the images differ, in order, each truncated to 16 bits. */
  function DiffsBelow(f1: seq<byte>, f2: seq<byte>, n: nat): (r: seq<u16>)
    requires |f1| == |f2| && n <= |f1|
    ensures |r| <= n
    ensures n <= 0x1_0000 ==> forall j :: 0 <= j < |r| ==> r[j] < n && f1[r[j]] != f2[r[j]]
  {
    if n == 0 then []
    else DiffsBelow(f1, f2, n - 1) + (if f1[n - 1] != f2[n - 1] then [(n - 1) % 0x1_0000] else [])
  }

  /** The largest byte of the first image at the offsets below `n` where the images differ, or 0. */
  function MaxBelow(f1: seq<byte>, f2: seq<byte>, n: nat): (r: byte)
    requires |f1| == |f2| && n <= |f1|
    ensures forall k :: 0 <= k < n && f1[k] != f2[k] ==> f1[k] <= r
  {
    if n == 0 then 0
    else
      var m := MaxBelow(f1, f2, n - 1);
      if f1[n - 1] != f2[n - 1] && f1[n - 1] > m then f1[n - 1] else m
  }

  /**
   * `compare`: the offsets where two equal-size images differ and the
   * largest first-image byte among them. The loop runs once more after the
   * last byte, when both reads give EOF, which never counts as a difference.
   */
  method Compare(name1: string, f1: seq<byte>, name2: string, f2: seq<byte>) returns (r: Result<(seq<u16>, byte)>)
    ensures |f1| != |f2| ==> r == Failure("files " + name1 + " and " + name2 + " are not the same size!")
    ensures |f1| == |f2| ==> r == Success((DiffsBelow(f1, f2, |f1|), MaxBelow(f1, f2, |f1|)))
  {
    if |f1| != |f2| {
      return Failure("files " + name1 + " and " + name2 + " are not the same size!");
    }
    var results: seq<u16> := [];
    var pos := 0;
    var max: byte := 0;
    var eof := false;
    while !eof
      invariant pos <= |f1| + 1 && (eof <==> pos == |f1| + 1)
      invariant pos <= |f1| ==> results == DiffsBelow(f1, f2, pos) && max == MaxBelow(f1, f2, pos)
      invariant pos > |f1| ==> results == DiffsBelow(f1, f2, |f1|) && max == MaxBelow(f1, f2, |f1|)
      decreases |f1| + 1 - pos
    {
      var b1 := Get(f1, pos);
      var b2 := Get(f2, pos);
      eof := pos >= |f1|;
      if b1 != b2 {
        results := results + [pos % 0x1_0000];
        max := if b1 > max then b1 else max;
      }
      pos := pos + 1;
    }
    return Success((results, max));
  }

  /**
   * While offsets fit in 16 bits the list is strictly increasing, holds
   * exactly the offsets where the images differ, and nothing else.
   */
  lemma {:induction false} DiffsExact(f1: seq<byte>, f2: seq<byte>, n: nat)
    requires |f1| == |f2| && n <= |f1| && n <= 0x1_0000
    ensures StrictlyIncreasing(DiffsBelow(f1, f2, n))
    ensures forall k :: 0 <= k < n ==> (f1[k] != f2[k] <==> k in DiffsBelow(f1, f2, n))
    ensures forall j :: 0 <= j < |DiffsBelow(f1, f2, n)| ==> DiffsBelow(f1, f2, n)[j] < n
  {
    if n > 0 {
      DiffsExact(f1, f2, n - 1);
      var before := DiffsBelow(f1, f2, n - 1);
      if f1[n - 1] != f2[n - 1] {
        assert DiffsBelow(f1, f2, n) == before + [n - 1];
        IncreasingSnoc(before, n - 1);
      } else {
        assert DiffsBelow(f1, f2, n) == before;
      }
    }
  }

  /** The reported maximum bounds every differing first-image byte and, unless 0, is one of them. */
  lemma {:induction false} MaxIsMaximum(f1: seq<byte>, f2: seq<byte>, n: nat)
    requires |f1| == |f2| && n <= |f1|
    ensures forall k :: 0 <= k < n && f1[k] != f2[k] ==> f1[k] <= MaxBelow(f1, f2, n)
    ensures MaxBelow(f1, f2, n) > 0 ==> exists k :: 0 <= k < n && f1[k] != f2[k] && f1[k] == MaxBelow(f1, f2, n)
  {
    if n > 0 {
      MaxIsMaximum(f1, f2, n - 1);
    }
  }

  // --- toBytestream ------------------------------------------------------------

  /**
   * `toBytestream`: the offsets as deltas in nibbles, the 0xf terminator,
   * then the nibbles paired into bytes. The result is the stream the
   * assembler's relocation writer produces, and it decodes to the offsets.
   */
  method ToBytestream(differences: seq<u16>) returns (results: seq<byte>)
    ensures results == Pack(Stream(differences))
    ensures |results| == (|Stream(differences)| + 1) / 2
    ensures Decode(Unpack(results), 0, 0) == Some(differences)
  {
    var bytes := DeltaStream(differences);
    results := PackNibbles(bytes);
    StreamRoundTrip(differences);
  }

  /** The first loop of `toBytestream`: each offset's delta from the previous one, then 0xf. */
  method DeltaStream(differences: seq<u16>) returns (bytes: seq<nibble>)
    ensures bytes == Stream(differences)
  {
    bytes := [];
    var pos: u16 := 0;
    for k := 0 to |differences|
      invariant bytes + OffsetNibbles(differences[k..], pos) == OffsetNibbles(differences, 0)
    {
      assert OffsetNibbles(differences[k..], pos)
        == DeltaNibbles(Delta16(differences[k], pos)) + OffsetNibbles(differences[k + 1..], differences[k]) by {
        assert differences[k..][1..] == differences[k + 1..];
      }
      ghost var start := bytes;
      var delta: u16 := (differences[k] - pos) % 0x1_0000;
      while delta >= 0xe
        invariant start + DeltaNibbles(Delta16(differences[k], pos)) == bytes + DeltaNibbles(delta)
      {
        assert DeltaNibbles(delta) == [RUN] + DeltaNibbles(delta - 0xe);
        Associative(bytes, [RUN], DeltaNibbles(delta - 0xe));
        bytes := bytes + [RUN];
        delta := delta - 0xe;
      }
      Associative(start, DeltaNibbles(Delta16(differences[k], pos)), OffsetNibbles(differences[k + 1..], differences[k]));
      bytes := bytes + [delta];
      pos := differences[k];
    }
    assert differences[|differences|..] == [];
    bytes := bytes + [END];
  }

  /** The second loop of `toBytestream`: `(left << 4) | right` for each pair, a missing right nibble being 0. */
  method PackNibbles(bytes: seq<nibble>) returns (results: seq<byte>)
    ensures results == Pack(bytes)
  {
    PackBytes(bytes);
    results := [];
    var i := 0;
    while i < |bytes|
      invariant i % 2 == 0 && i <= |bytes| + 1
      invariant results == Pack(bytes)[..i / 2]
    {
      var left := bytes[i];
      var right := if i + 1 < |bytes| then bytes[i + 1] else 0;
      // the two halves do not overlap, so the bitwise or is a sum
      results := results + [left as int * 16 + right];
      i := i + 2;
    }
    assert Pack(bytes)[..|Pack(bytes)|] == Pack(bytes);
  }

  // --- roundup and align -------------------------------------------------------

  /** `roundup`: `(value + 127) & ~127` in 32-bit unsigned arithmetic. */
  function Roundup(value: u32): (r: u32)
    ensures r % 128 == 0
    ensures value <= 0xffff_ff80 ==> value <= r < value + 128
  {
    ((value + 127) % 0x1_0000_0000) / 128 * 128
  }

  /** Near the top of the 32-bit range the sum wraps and the result is small. */
  lemma RoundupWraps()
    ensures Roundup(0xffff_ff81) == 0
  {
  }

  /** `n` is a power of two. */
  predicate IsPowerOfTwo(n: nat)
    decreases n
  {
    n == 1 || (n >= 2 && n % 2 == 0 && IsPowerOfTwo(n / 2))
  }

  /**
   * `align`: zero bytes until the stream position is a multiple of `pow2`.
   * The loop tests `pos & (pow2 - 1)`, which is `pos % pow2` because `pow2`
   * is a power of two.
   */
  method Align(s: seq<byte>, pow2: u32) returns (r: seq<byte>)
    requires IsPowerOfTwo(pow2)
    ensures |r| % pow2 == 0 && |s| <= |r| < |s| + pow2
    ensures r[..|s|] == s && forall k :: |s| <= k < |r| ==> r[k] == 0
    ensures |s| % pow2 == 0 ==> r == s
  {
    ghost var limit := (|s| + pow2 - 1) / pow2 * pow2;
    CeilingMultiple(|s|, pow2);
    r := s;
    while |r| % pow2 != 0
      invariant |s| <= |r| <= limit && r[..|s|] == s && forall k :: |s| <= k < |r| ==> r[k] == 0
      decreases limit - |r|
    {
      r := r + [0];
    }
  }

  /** The least multiple of `p` that is at least `n`. */
  lemma CeilingMultiple(n: nat, p: nat)
    requires p > 0
    ensures var c := (n + p - 1) / p * p; c % p == 0 && n <= c < n + p
    ensures n % p == 0 ==> (n + p - 1) / p * p == n
  {
    var q, m := n / p, n % p;
    if m == 0 {
      DivisionOf(n + p - 1, p, q, p - 1);
    } else {
      DivisionOf(n + p - 1, p, q + 1, m - 1);
    }
    DivisionOf((n + p - 1) / p * p, p, (n + p - 1) / p, 0);
  }

  // --- the code body and the TPA byte ------------------------------------------

  /** A byte less 2, as the `put` of the decremented `int` truncates it. */
  function Less2(b: byte): byte
  {
    (b - 2) % 0x100
  }

  /**
   * The loop that writes the code body: the core image, with 2 taken from
   * each byte whose offset is the next one in the memory-difference list.
   * The list's end is checked before it is read.
   */
  method PatchBody(core: seq<byte>, memDifferences: seq<u16>) returns (body: seq<byte>)
    ensures |body| == |core|
    ensures forall k :: 0 <= k < |core| ==> body[k] == core[k] || body[k] == Less2(core[k])
    ensures StrictlyIncreasing(memDifferences) ==>
      forall k :: 0 <= k < |core| ==> body[k] == if k in memDifferences then Less2(core[k]) else core[k]
  {
    body := [];
    var memi := 0;
    var pos := 0;
    while pos < |core|
      invariant pos <= |core| && |body| == pos && memi <= |memDifferences|
      invariant forall k :: 0 <= k < pos ==> body[k] == core[k] || body[k] == Less2(core[k])
      invariant StrictlyIncreasing(memDifferences) ==>
        (forall j :: 0 <= j < memi ==> memDifferences[j] < pos) &&
        (memi < |memDifferences| ==> memDifferences[memi] >= pos) &&
        (forall k :: 0 <= k < pos ==> body[k] == if k in memDifferences then Less2(core[k]) else core[k])
    {
      var b := core[pos];
      if memi < |memDifferences| && pos == memDifferences[memi] {
        b := Less2(b);
        memi := memi + 1;
      } else if StrictlyIncreasing(memDifferences) {
        assert pos !in memDifferences by {
          forall j | 0 <= j < |memDifferences| ensures memDifferences[j] != pos {
            if j > memi {
              assert memDifferences[j] > memDifferences[memi];
            }
          }
        }
      }
      body := body + [b];
      pos := pos + 1;
    }
  }

  /** The relocation offset the header stores in bytes 2 and 3, little-endian. */
  function RelOffset(image: seq<byte>): u16
    requires |image| >= 4
  {
    image[2] as int + 256 * (image[3] as int)
  }

  /** `reloBytesSize`: both streams and the byte between them, as the `uint32_t` the size is stored in. */
  function RelocSize(zpBytes: seq<byte>, memBytes: seq<byte>): u32
  {
    (|zpBytes| + 1 + |memBytes|) % 0x1_0000_0000
  }

  /** The pages needed for the code and relocation data, as the `uint8_t` that `std::max<uint8_t>` takes. */
  function TpaPages(image: seq<byte>, reloBytesSize: u32): byte
    requires |image| >= 4
  {
    (RelOffset(image) + reloBytesSize + 255) % 0x1_0000_0000 / 256 % 0x100
  }

  /**
   * The TPA patch: byte 1 becomes the larger of itself and the pages that
   * the code plus the relocation bytes need. (An image too short for the
   * header bytes is `Link`'s concern: reading them fails the stream.)
   */
  function PatchTpa(image: seq<byte>, reloBytesSize: u32): (r: seq<byte>)
    requires |image| >= 4
    ensures |r| == |image|
    ensures forall k :: 0 <= k < |image| && k != 1 ==> r[k] == image[k]
    ensures r[1] >= image[1] && r[1] >= TpaPages(image, reloBytesSize)
    ensures r[1] == image[1] || r[1] == TpaPages(image, reloBytesSize)
  {
    var tpa := TpaPages(image, reloBytesSize);
    image[1 := if image[1] >= tpa then image[1] else tpa]
  }

  /** Unless the page count wraps, the patched TPA covers the code and the relocation bytes, and never shrinks. */
  lemma TpaCovers(image: seq<byte>, reloBytesSize: u32)
    requires |image| >= 4
    requires RelOffset(image) + reloBytesSize <= 0xff00
    ensures PatchTpa(image, reloBytesSize)[1] * 256 >= RelOffset(image) + reloBytesSize
    ensures PatchTpa(image, reloBytesSize)[1] >= image[1]
  {
  }

  // --- main --------------------------------------------------------------------

  /**
   * What `main` writes: the patched body, then the zero-page and memory
   * relocation streams. Reading the header of an image shorter than 4 bytes
   * runs into end of file, and the failed stream ignores every later seek
   * and `put`, so such an output holds the body alone.
   */
  method Link(coreName: string, core: seq<byte>, zpName: string, zp: seq<byte>, memName: string, mem: seq<byte>)
    returns (r: Result<seq<byte>>)
    ensures |zp| != |core| ==> r == Failure("files " + coreName + " and " + zpName + " are not the same size!")
    ensures |zp| == |core| && |mem| != |core| ==> r == Failure("files " + coreName + " and " + memName + " are not the same size!")
    ensures |zp| == |core| && |mem| == |core| && |core| < 4 ==> r.Success? && |r.value| == |core|
    ensures |zp| == |core| && |mem| == |core| && |core| >= 4 ==> (r.Success? &&
      var zpBytes := Pack(Stream(DiffsBelow(core, zp, |core|)));
      var memBytes := Pack(Stream(DiffsBelow(core, mem, |core|)));
      |r.value| == |core| + |zpBytes| + |memBytes| &&
      r.value[|core|..|core| + |zpBytes|] == zpBytes &&
      r.value[|core| + |zpBytes|..] == memBytes)
    ensures |zp| == |core| && |mem| == |core| && |core| <= 0x1_0000 ==>
      forall k :: 0 <= k < |core| && (k != 1 || |core| < 4) ==>
        r.value[k] == if core[k] != mem[k] then Less2(core[k]) else core[k]
    ensures |zp| == |core| && |mem| == |core| && 4 <= |core| <= 0x1_0000 ==>
      r.Success? && |r.value| >= |core| &&
      var b1 := if core[1] != mem[1] then Less2(core[1]) else core[1];
      var reloBytesSize := RelocSize(Pack(Stream(DiffsBelow(core, zp, |core|))), Pack(Stream(DiffsBelow(core, mem, |core|))));
      var tpa := TpaPages(r.value, reloBytesSize);
      r.value[1] == if b1 >= tpa then b1 else tpa
  {
    var zpDiff := Compare(coreName, core, zpName, zp);
    if zpDiff.Failure? {
      return Failure(zpDiff.message);
    }
    var zpBytes := ToBytestream(zpDiff.value.0);
    var memDiff := Compare(coreName, core, memName, mem);
    if memDiff.Failure? {
      return Failure(memDiff.message);
    }
    var memBytes := ToBytestream(memDiff.value.0);
    assert zpBytes == Pack(Stream(DiffsBelow(core, zp, |core|)));
    assert memBytes == Pack(Stream(DiffsBelow(core, mem, |core|)));
    var out := WriteOutput(core, zp, mem, memDiff.value.0, zpBytes, memBytes);
    r := Success(out);
  }

  /**
   * The writes to the output file: the code body, the TPA patch (which the
   * stream ignores once reading a short header has failed it), then the
   * zero-page and memory relocation bytes.
   */
  method WriteOutput(core: seq<byte>, zp: seq<byte>, mem: seq<byte>, memDifferences: seq<u16>, zpBytes: seq<byte>, memBytes: seq<byte>)
    returns (out: seq<byte>)
    requires |zp| == |core| && |mem| == |core| && memDifferences == DiffsBelow(core, mem, |core|)
    requires zpBytes == Pack(Stream(DiffsBelow(core, zp, |core|)))
    requires memBytes == Pack(Stream(DiffsBelow(core, mem, |core|)))
    ensures |core| < 4 ==> |out| == |core|
    ensures |core| >= 4 ==>
      var zpBytes := Pack(Stream(DiffsBelow(core, zp, |core|)));
      var memBytes := Pack(Stream(DiffsBelow(core, mem, |core|)));
      |out| == |core| + |zpBytes| + |memBytes| &&
      out[|core|..|core| + |zpBytes|] == zpBytes && out[|core| + |zpBytes|..] == memBytes
    ensures |core| <= 0x1_0000 ==>
      forall k :: 0 <= k < |core| && (k != 1 || |core| < 4) ==>
        out[k] == if core[k] != mem[k] then Less2(core[k]) else core[k]
    ensures 4 <= |core| <= 0x1_0000 ==>
      |out| >= |core| &&
      var b1 := if core[1] != mem[1] then Less2(core[1]) else core[1];
      var reloBytesSize := RelocSize(Pack(Stream(DiffsBelow(core, zp, |core|))), Pack(Stream(DiffsBelow(core, mem, |core|))));
      var tpa := TpaPages(out, reloBytesSize);
      out[1] == if b1 >= tpa then b1 else tpa
  {
    var reloBytesSize := RelocSize(zpBytes, memBytes);
    var body := PatchBody(core, memDifferences);
    if |core| <= 0x1_0000 {
      assert forall k :: 0 <= k < |core| ==> body[k] == if core[k] != mem[k] then Less2(core[k]) else core[k] by {
        DiffsExact(core, mem, |core|);
      }
    }
    if |core| < 4 {
      return body;
    }
    out := PatchTpa(body, reloBytesSize) + zpBytes + memBytes;
    LinkedOutput(body, zpBytes, memBytes, reloBytesSize);
  }

  /**
   * The pieces of the output: the patched body, whose header still gives the
   * TPA, then the two streams.
   */
  lemma LinkedOutput(body: seq<byte>, zpBytes: seq<byte>, memBytes: seq<byte>, reloBytesSize: u32)
    requires |body| >= 4
    ensures var out := PatchTpa(body, reloBytesSize) + zpBytes + memBytes;
      |out| == |body| + |zpBytes| + |memBytes| &&
      (forall k :: 0 <= k < |body| && k != 1 ==> out[k] == body[k]) &&
      (var tpa := TpaPages(out, reloBytesSize); out[1] == if body[1] >= tpa then body[1] else tpa) &&
      out[|body|..|body| + |zpBytes|] == zpBytes && out[|body| + |zpBytes|..] == memBytes
  {
    var patched := PatchTpa(body, reloBytesSize);
    var out := patched + zpBytes + memBytes;
    assert out[2] == body[2] && out[3] == body[3];
    assert out[1] == patched[1];
    assert out[|body|..|body| + |zpBytes|] == zpBytes;
    assert out[|body| + |zpBytes|..] == memBytes;
  }
}
