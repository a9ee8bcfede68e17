/**
 * The assembler's in-memory state: the record buffer it grows while
 * parsing, the newest-first symbol list with its scope stack, the zero-page
 * and BSS allocators, and the placement pass that rewrites the buffer in
 * place.
 */
module Assembler {
  import opened Base
  import opened Opcodes
  import opened Records
  import opened Placement

  /** Depth of the scope stack (`ZMACRO_STACK_SIZE`); one slot is never used. */
  const SCOPE_STACK_SIZE: nat := 8

  // --- Zero-page and BSS allocation --------------------------------------------

  /**
   * `.zp` as written: on the 16-bit target `zpUsage + size` is computed in
   * 16 bits, so the wrap check only fires past 0xffff, and the new usage is
   * truncated to the 8-bit `zpUsage`.
   */
  function ZpAllocateAsWritten(zp: byte, size: u16): (r: Result<byte>)
    ensures r.Success? <==> zp + size < 0x1_0000
  {
    if (zp + size) % 0x1_0000 < zp then Failure("ran out of zero page")
    else Success(((zp + size) % 0x100) as byte)
  }

  /** 100 bytes after 200 run past the end of zero page, yet the allocation succeeds and usage drops to 44. */
  lemma ZpOverflowUndetected()
    ensures ZpAllocateAsWritten(200, 100) == Success(44)
  {
  }

  /** `.zp` corrected: an allocation must end inside the 256-byte zero page, whose usage an 8-bit counter records. */
  function ZpAllocate(zp: byte, size: u16): (r: Result<byte>)
    ensures r.Success? <==> zp + size <= 0xff
    ensures r.Success? ==> r.value == zp + size
    ensures r.Failure? ==> r.message == "ran out of zero page"
  {
    if zp + size > 0xff then Failure("ran out of zero page") else Success((zp + size) as byte)
  }

  /**
   * The code's check and the corrected one agree on every allocation that
   * ends inside zero page, and differ exactly on those that run past it
   * without wrapping 16 bits.
   */
  lemma ZpAgreesInside(zp: byte, size: u16)
    ensures zp + size <= 0xff ==> ZpAllocateAsWritten(zp, size) == ZpAllocate(zp, size)
    ensures ZpAllocateAsWritten(zp, size) != ZpAllocate(zp, size) <==> 0xff < zp + size < 0x1_0000
  {
  }

  /** `.bss`: the 16-bit usage must not wrap; the check catches exactly the allocations that would. */
  function BssAllocate(bss: u16, size: u16): (r: Result<u16>)
    ensures r.Success? <==> bss + size <= 0xffff
    ensures r.Success? ==> r.value == bss + size
    ensures r.Failure? ==> r.message == "ran out of BSS"
  {
    if (bss + size) % 0x1_0000 < bss then Failure("ran out of BSS")
    else Success(((bss + size) % 0x1_0000) as u16)
  }

  /** The bytes of an instruction with a constant operand: the opcode, then the operand little-endian, as long as the opcode says. */
  function ConstantEncoding(op: bv8, value: u16): (r: seq<byte>)
    ensures |r| == GetInsnLength(op) && r[0] == op as byte
    ensures |r| > 1 ==> r[1] == (value % 0x100) as byte
    ensures |r| > 2 ==> r[2] == (value / 0x100) as byte && r[1] as int + 0x100 * r[2] as int == value
  {
    var len := GetInsnLength(op);
    if len == 1 then [op as byte]
    else if len == 2 then [op as byte, (value % 0x100) as byte]
    else [op as byte, (value % 0x100) as byte, (value / 0x100) as byte]
  }

  // --- The assembler state -------------------------------------------------------

  class Assembler {
    /** The record buffer, from the bottom of memory to `top`. */
    var records: seq<Record>
    /** The newest symbol; every symbol record links to the one before it. */
    var lastSymbol: Option<nat>
    /** Depth of the scope stack and the saved list heads. */
    var scopePointer: nat
    const scopePointers: array<Option<nat>>
    var zpUsage: byte
    var bssUsage: u16
    var textUsage: u16
    /** The size given to a branch before placement knows its distance (`.expand`). */
    var defaultBranchSize: nat
    var badProgram: bool

    ghost predicate Valid()
      reads this, scopePointers
    {
      WellFormed(records) && AllFit(records) && IsHead(records, lastSymbol) &&
      scopePointers.Length == SCOPE_STACK_SIZE && scopePointer < SCOPE_STACK_SIZE &&
      (forall k :: 0 <= k < scopePointer ==> IsHead(records, scopePointers[k])) &&
      (defaultBranchSize == 2 || defaultBranchSize == 5)
    }

    /** The state at start-up: empty buffer, empty symbol list, nothing allocated, long branches by default. */
    constructor ()
      ensures Valid() && fresh(scopePointers)
      ensures records == [] && lastSymbol == None && scopePointer == 0
      ensures zpUsage == 0 && bssUsage == 0 && textUsage == 0
      ensures defaultBranchSize == 5 && !badProgram
    {
      records := [];
      lastSymbol := None;
      scopePointer := 0;
      scopePointers := new Option<nat>[SCOPE_STACK_SIZE](_ => None);
      zpUsage := 0;
      bssUsage := 0;
      textUsage := 0;
      defaultBranchSize := 5;
      badProgram := false;
    }

    /** Re-establishes `Valid` after the buffer grew or changed fields without moving a pointer. */
    lemma KeepsHeads(old_records: seq<Record>)
      requires WellFormed(old_records) && WellFormed(records) && Extends(old_records, records)
      requires forall h: Option<nat> :: IsHead(old_records, h) ==> IsHead(records, h)
      requires IsHead(old_records, lastSymbol) && scopePointers.Length == SCOPE_STACK_SIZE
      requires scopePointer < SCOPE_STACK_SIZE
      requires forall k :: 0 <= k < scopePointer ==> IsHead(old_records, scopePointers[k])
      ensures IsHead(records, lastSymbol)
      ensures forall k :: 0 <= k < scopePointer ==> IsHead(records, scopePointers[k])
    {
    }

    // --- Records -------------------------------------------------------------

    /** `emitByte`: the byte reads back after every byte emitted before it. */
    method EmitByte(b: byte)
      requires Valid()
      modifies this
      ensures Valid()
      ensures records == Emit(old(records), b)
      ensures Payload(records) == Payload(old(records)) + [b]
      ensures Extends(old(records), records)
      ensures lastSymbol == old(lastSymbol) && scopePointer == old(scopePointer)
      ensures zpUsage == old(zpUsage) && bssUsage == old(bssUsage) && textUsage == old(textUsage)
      ensures defaultBranchSize == old(defaultBranchSize) && badProgram == old(badProgram)
    {
      EmitAppends(records, b);
      EmitKeeps(records, b);
      var n := |records|;
      if n > 0 && records[n - 1].Bytes? && |records[n - 1].payload| < MAX_PAYLOAD {
        records := records[..n - 1] + [Bytes(records[n - 1].payload + [b])];
      } else {
        records := records + [Bytes([b])];
      }
    }

    /** `addRecord`: a new record goes after every existing one. */
    method AddRecord(r: Record)
      requires Valid() && Fits(r) && LocalOk(records + [r], |records|)
      modifies this
      ensures Valid()
      ensures records == old(records) + [r]
      ensures Extends(old(records), records)
      ensures lastSymbol == old(lastSymbol) && scopePointer == old(scopePointer)
      ensures zpUsage == old(zpUsage) && bssUsage == old(bssUsage) && textUsage == old(textUsage)
      ensures defaultBranchSize == old(defaultBranchSize) && badProgram == old(badProgram)
    {
      AppendKeeps(records, r);
      records := records + [r];
    }

    /** `emitFill`: a fill record of `count` zero bytes. */
    method EmitFill(count: u16)
      requires Valid()
      modifies this
      ensures Valid()
      ensures records == old(records) + [Fill(count)]
      ensures Extends(old(records), records)
      ensures lastSymbol == old(lastSymbol) && scopePointer == old(scopePointer)
      ensures zpUsage == old(zpUsage) && bssUsage == old(bssUsage) && textUsage == old(textUsage)
      ensures defaultBranchSize == old(defaultBranchSize) && badProgram == old(badProgram)
    {
      AddRecord(Fill(count));
    }

    /**
     * `addExpressionRecord`: an operand that refers to a symbol becomes an
     * expression record of unknown length; a constant one is emitted at once,
     * little-endian, with as many operand bytes as the opcode takes.
     */
    method AddExpressionRecord(op: bv8, variable: Option<nat>, value: u16, post: byte)
      requires Valid() && IsHead(records, variable)
      modifies this
      ensures Valid()
      ensures variable.Some? ==> records == old(records) + [Expr(op, variable, value, 0xff, post)]
      ensures variable.None? ==> records == EmitAll(old(records), ConstantEncoding(op, value))
      ensures variable.None? ==> Payload(records) == Payload(old(records)) + ConstantEncoding(op, value)
      ensures Extends(old(records), records)
      ensures lastSymbol == old(lastSymbol) && scopePointer == old(scopePointer)
      ensures zpUsage == old(zpUsage) && bssUsage == old(bssUsage) && textUsage == old(textUsage)
      ensures defaultBranchSize == old(defaultBranchSize) && badProgram == old(badProgram)
    {
      if variable.Some? {
        AddRecord(Expr(op, variable, value, 0xff, post));
      } else {
        EmitBytes(ConstantEncoding(op, value));
      }
    }

    /** Emits `bs` one byte at a time. */
    method EmitBytes(bs: seq<byte>)
      requires Valid()
      modifies this
      ensures Valid()
      ensures records == EmitAll(old(records), bs)
      ensures Payload(records) == Payload(old(records)) + bs
      ensures Extends(old(records), records)
      ensures lastSymbol == old(lastSymbol) && scopePointer == old(scopePointer)
      ensures zpUsage == old(zpUsage) && bssUsage == old(bssUsage) && textUsage == old(textUsage)
      ensures defaultBranchSize == old(defaultBranchSize) && badProgram == old(badProgram)
    {
      ghost var rs0 := records;
      for k := 0 to |bs|
        invariant Valid() && records == EmitAll(rs0, bs[..k]) && Extends(rs0, records)
        invariant lastSymbol == old(lastSymbol) && scopePointer == old(scopePointer)
        invariant zpUsage == old(zpUsage) && bssUsage == old(bssUsage) && textUsage == old(textUsage)
        invariant defaultBranchSize == old(defaultBranchSize) && badProgram == old(badProgram)
      {
        ghost var before := records;
        EmitByte(bs[k]);
        EmitAllPrefix(rs0, bs, k);
        ExtendsTrans(rs0, before, records);
      }
      assert bs[..|bs|] == bs;
      EmitAllAppends(rs0, bs);
    }

    // --- The symbol list -----------------------------------------------------

    /** `lookupSymbol`: walks the list from the newest symbol. */
    method LookupSymbol(name: string) returns (r: Option<nat>)
      requires Valid()
      ensures r == Find(records, lastSymbol, name)
    {
      var h := lastSymbol;
      while h.Some?
        invariant IsHead(records, h)
        invariant Find(records, h, name) == Find(records, lastSymbol, name)
        decreases Rank(h)
      {
        assert LocalOk(records, h.value);
        if records[h.value].name == name {
          return h;
        }
        h := records[h.value].next;
      }
      return None;
    }

    /**
     * `appendSymbol`: a new, uninitialised symbol becomes the head of the
     * list; a name too long for a record is fatal.
     */
    method AppendSymbol(name: string) returns (st: Status, sym: nat)
      requires Valid()
      modifies this
      ensures Valid()
      ensures st.Ok? <==> SYMBOL_HEADER + |name| <= MAX_RECORD
      ensures st.Fatal? ==> st.message == "symbol too long" && records == old(records) && lastSymbol == old(lastSymbol)
      ensures st.Ok? ==> (sym == |old(records)| && lastSymbol == Some(sym) &&
        records == old(records) + [Symbol(Uninitialised, None, 0, old(lastSymbol), name)])
      ensures st.Ok? ==> forall n :: Find(records, lastSymbol, n) == if n == name then Some(sym) else Find(old(records), old(lastSymbol), n)
      ensures Extends(old(records), records)
      ensures scopePointer == old(scopePointer)
      ensures zpUsage == old(zpUsage) && bssUsage == old(bssUsage) && textUsage == old(textUsage)
      ensures defaultBranchSize == old(defaultBranchSize) && badProgram == old(badProgram)
    {
      sym := |records|;
      if SYMBOL_HEADER + |name| > MAX_RECORD {
        return Fatal("symbol too long"), sym;
      }
      var s := Symbol(Uninitialised, None, 0, lastSymbol, name);
      FindAfterAppend(records, lastSymbol, s, name);
      forall n ensures Find(records + [s], Some(sym), n) == if n == name then Some(sym) else Find(records, lastSymbol, n) {
        FindAfterAppend(records, lastSymbol, s, n);
      }
      AddRecord(s);
      lastSymbol := Some(sym);
      st := Ok;
    }

    /** `addOrFindSymbol`: the existing symbol of that name, or a new one. */
    method AddOrFindSymbol(name: string) returns (st: Status, sym: nat)
      requires Valid()
      modifies this
      ensures Valid()
      ensures old(Find(records, lastSymbol, name)).Some? ==>
        st.Ok? && sym == old(Find(records, lastSymbol, name)).value && records == old(records) && lastSymbol == old(lastSymbol)
      ensures old(Find(records, lastSymbol, name)).None? ==>
        (st.Ok? <==> SYMBOL_HEADER + |name| <= MAX_RECORD) &&
        (st.Ok? ==> sym == |old(records)| && records == old(records) + [Symbol(Uninitialised, None, 0, old(lastSymbol), name)])
      ensures st.Ok? ==> sym < |records| && records[sym].Symbol? && records[sym].name == name && Find(records, lastSymbol, name) == Some(sym)
      ensures Extends(old(records), records)
      ensures scopePointer == old(scopePointer)
      ensures zpUsage == old(zpUsage) && bssUsage == old(bssUsage) && textUsage == old(textUsage)
      ensures defaultBranchSize == old(defaultBranchSize) && badProgram == old(badProgram)
    {
      var found := LookupSymbol(name);
      if found.Some? {
        return Ok, found.value;
      }
      st, sym := AppendSymbol(name);
    }

    /** `addSymbol`: defining a name that lookup already finds is fatal. */
    method AddSymbol(name: string) returns (st: Status, sym: nat)
      requires Valid()
      modifies this
      ensures Valid()
      ensures old(Find(records, lastSymbol, name)).Some? ==> st == Fatal("symbol exists") && records == old(records)
      ensures old(Find(records, lastSymbol, name)).None? ==>
        (st.Ok? <==> SYMBOL_HEADER + |name| <= MAX_RECORD) &&
        (st.Ok? ==> (sym == |old(records)| && lastSymbol == Some(sym) &&
          records == old(records) + [Symbol(Uninitialised, None, 0, old(lastSymbol), name)]))
      ensures Extends(old(records), records)
      ensures scopePointer == old(scopePointer)
      ensures zpUsage == old(zpUsage) && bssUsage == old(bssUsage) && textUsage == old(textUsage)
      ensures defaultBranchSize == old(defaultBranchSize) && badProgram == old(badProgram)
    {
      var found := LookupSymbol(name);
      if found.Some? {
        return Fatal("symbol exists"), found.value;
      }
      st, sym := AppendSymbol(name);
    }

    // --- Scopes --------------------------------------------------------------

    /** `pushScope`: saves the list head; a push at depth 7 is fatal. */
    method PushScope() returns (st: Status)
      requires Valid()
      modifies this, scopePointers
      ensures Valid()
      ensures st.Ok? <==> old(scopePointer) < SCOPE_STACK_SIZE - 1
      ensures st.Fatal? ==> st.message == "too many nested scopes"
      ensures st.Ok? ==> scopePointer == old(scopePointer) + 1 && scopePointers[old(scopePointer)] == lastSymbol
      ensures st.Fatal? ==> scopePointer == old(scopePointer) && scopePointers[..] == old(scopePointers[..])
      ensures forall k :: 0 <= k < old(scopePointer) ==> scopePointers[k] == old(scopePointers[k])
      ensures records == old(records) && lastSymbol == old(lastSymbol)
      ensures zpUsage == old(zpUsage) && bssUsage == old(bssUsage) && textUsage == old(textUsage)
      ensures defaultBranchSize == old(defaultBranchSize) && badProgram == old(badProgram)
    {
      if scopePointer == SCOPE_STACK_SIZE - 1 {
        return Fatal("too many nested scopes");
      }
      scopePointers[scopePointer] := lastSymbol;
      scopePointer := scopePointer + 1;
      st := Ok;
    }

    /**
     * `popScope`: the list head goes back to the one saved by the matching
     * push, so symbols appended inside the scope are no longer found
     * (`FindStable`); popping an empty stack is fatal.
     */
    method PopScope() returns (st: Status)
      requires Valid()
      modifies this
      ensures Valid()
      ensures st.Ok? <==> old(scopePointer) > 0
      ensures st.Fatal? ==> st.message == "scope underflow"
      ensures st.Ok? ==> scopePointer == old(scopePointer) - 1 && lastSymbol == scopePointers[scopePointer]
      ensures st.Ok? ==> forall n :: Find(records, lastSymbol, n) == Find(records, scopePointers[scopePointer], n)
      ensures st.Fatal? ==> scopePointer == old(scopePointer) && lastSymbol == old(lastSymbol)
      ensures records == old(records)
      ensures zpUsage == old(zpUsage) && bssUsage == old(bssUsage) && textUsage == old(textUsage)
      ensures defaultBranchSize == old(defaultBranchSize) && badProgram == old(badProgram)
    {
      if scopePointer == 0 {
        return Fatal("scope underflow");
      }
      scopePointer := scopePointer - 1;
      lastSymbol := scopePointers[scopePointer];
      st := Ok;
    }

    // --- Symbol definitions ----------------------------------------------------

    /** Gives the symbol at `sym` a new kind and offset, leaving its name and links alone. */
    method SetSymbol(sym: nat, kind: SymbolKind, offset: u16)
      requires Valid() && sym < |records| && records[sym].Symbol?
      modifies this
      ensures Valid()
      ensures records == old(records)[sym := Symbol(kind, old(records)[sym].variable, offset, old(records)[sym].next, old(records)[sym].name)]
      ensures Extends(old(records), records)
      ensures lastSymbol == old(lastSymbol) && scopePointer == old(scopePointer)
      ensures zpUsage == old(zpUsage) && bssUsage == old(bssUsage) && textUsage == old(textUsage)
      ensures defaultBranchSize == old(defaultBranchSize) && badProgram == old(badProgram)
    {
      var s := records[sym];
      var r := Symbol(kind, s.variable, offset, s.next, s.name);
      UpdateKeeps(records, sym, r);
      records := records[sym := r];
    }

    /** `.zp`: the symbol gets the next free zero-page address and usage grows by `size` (corrected overflow check). */
    method AllocateZp(sym: nat, size: u16) returns (st: Status)
      requires Valid() && sym < |records| && records[sym].Symbol?
      modifies this
      ensures Valid()
      ensures st.Ok? <==> ZpAllocate(old(zpUsage), size).Success?
      ensures st.Fatal? ==> st.message == "ran out of zero page" && records == old(records) && zpUsage == old(zpUsage)
      ensures Extends(old(records), records) && |records| == |old(records)|
      ensures st.Ok? ==> (zpUsage == ZpAllocate(old(zpUsage), size).value &&
        records[sym] == old(records)[sym].(kind := ZeroPage, offset := old(zpUsage)))
      ensures forall j :: 0 <= j < |records| && j != sym ==> records[j] == old(records)[j]
      ensures lastSymbol == old(lastSymbol) && scopePointer == old(scopePointer)
      ensures bssUsage == old(bssUsage) && textUsage == old(textUsage)
      ensures defaultBranchSize == old(defaultBranchSize) && badProgram == old(badProgram)
    {
      var r := ZpAllocate(zpUsage, size);
      if r.Failure? {
        return Fatal(r.message);
      }
      SetSymbol(sym, ZeroPage, zpUsage as u16);
      zpUsage := r.value;
      st := Ok;
    }

    /** `.bss`: the symbol gets the next free BSS offset and usage grows by `size`; wrapping is fatal. */
    method AllocateBss(sym: nat, size: u16) returns (st: Status)
      requires Valid() && sym < |records| && records[sym].Symbol?
      modifies this
      ensures Valid()
      ensures st.Ok? <==> BssAllocate(old(bssUsage), size).Success?
      ensures st.Fatal? ==> st.message == "ran out of BSS" && records == old(records) && bssUsage == old(bssUsage)
      ensures Extends(old(records), records) && |records| == |old(records)|
      ensures st.Ok? ==> (bssUsage == BssAllocate(old(bssUsage), size).value &&
        records[sym] == old(records)[sym].(kind := Bss, offset := old(bssUsage)))
      ensures forall j :: 0 <= j < |records| && j != sym ==> records[j] == old(records)[j]
      ensures lastSymbol == old(lastSymbol) && scopePointer == old(scopePointer)
      ensures zpUsage == old(zpUsage) && textUsage == old(textUsage)
      ensures defaultBranchSize == old(defaultBranchSize) && badProgram == old(badProgram)
    {
      var r := BssAllocate(bssUsage, size);
      if r.Failure? {
        return Fatal(r.message);
      }
      SetSymbol(sym, Bss, bssUsage);
      bssUsage := r.value;
      st := Ok;
    }

    /**
     * `createLabelDefinition`: only a symbol not yet defined (or so far only
     * referenced) can become a label; it turns into a text symbol and a label
     * definition record marks the place.
     */
    method DefineLabel(sym: nat) returns (st: Status)
      requires Valid() && sym < |records| && records[sym].Symbol?
      modifies this
      ensures Valid()
      ensures st.Ok? <==> old(records)[sym].kind in {Uninitialised, Reference}
      ensures st.Fatal? ==> st.message == "symbol exists" && records == old(records)
      ensures st.Ok? ==> records == old(records)[sym := old(records)[sym].(kind := Text)] + [LabelDef(sym)]
      ensures Extends(old(records), records)
      ensures lastSymbol == old(lastSymbol) && scopePointer == old(scopePointer)
      ensures zpUsage == old(zpUsage) && bssUsage == old(bssUsage) && textUsage == old(textUsage)
      ensures defaultBranchSize == old(defaultBranchSize) && badProgram == old(badProgram)
    {
      var s := records[sym];
      if s.kind != Uninitialised && s.kind != Reference {
        return Fatal("symbol exists");
      }
      ghost var rs0 := records;
      SetSymbol(sym, Text, s.offset);
      ghost var rs1 := records;
      AddRecord(LabelDef(sym));
      ExtendsTrans(rs0, rs1, records);
      st := Ok;
    }

    /** `.expand`: a non-zero flag makes unplaced branches long (5 bytes), zero makes them short. */
    method SetExpand(flag: u16)
      requires Valid()
      modifies this
      ensures Valid()
      ensures defaultBranchSize == if flag != 0 then 5 else 2
      ensures records == old(records) && lastSymbol == old(lastSymbol) && scopePointer == old(scopePointer)
      ensures zpUsage == old(zpUsage) && bssUsage == old(bssUsage) && textUsage == old(textUsage)
      ensures badProgram == old(badProgram)
    {
      defaultBranchSize := if flag != 0 then 5 else 2;
    }

    // --- Placement -------------------------------------------------------------

    /** The body of the placement loop for record `i`: one `Step` of the pass, done in place. */
    method PlaceRecord(i: nat, pc: u16, changed: bool, pass: nat) returns (st: Status, next: u16, changed': bool)
      requires WellFormed(records) && i < |records|
      modifies this`records, this`badProgram
      ensures match Step(old(records), i, pc, changed, old(badProgram), pass, defaultBranchSize)
        case Failure(m) => st == Fatal(m)
        case Success(p) => st == Ok && records == p.records && next == p.pc && changed' == p.changed && badProgram == p.bad
      ensures st.Fatal? ==> records == old(records)
    {
      assert LocalOk(records, i);
      st, next, changed' := Ok, pc, changed;
      match records[i] {
        case Symbol(kind, _, _, _, _) =>
          if kind == Reference {
            badProgram := true;
          }
        case Bytes(p) =>
          next := (pc + |p|) % 0x1_0000;
        case Fill(n) =>
          next := (pc + n) % 0x1_0000;
        case Expr(_, v, off, len, post) =>
          var placed := ExprPlacement(records, i, pc, pass, defaultBranchSize);
          if placed.Failure? {
            return Fatal(placed.message), next, changed';
          }
          if placed.value.length != len {
            changed' := true;
          }
          records := records[i := Expr(placed.value.opcode, v, off, placed.value.length, post)];
          next := (pc + placed.value.length) % 0x1_0000;
        case LabelDef(s) =>
          var sym := records[s];
          records := records[s := Symbol(sym.kind, sym.variable, pc, sym.next, sym.name)];
        case Eof =>
      }
    }

    /**
     * `placeCode(pass)`: one pass over the buffer, rewriting expression
     * records and label offsets in place as `PlaceCode` describes, and
     * leaving the final address in `textUsage`.
     */
    method PlaceCodePass(pass: nat) returns (st: Status, changed: bool)
      requires Valid()
      modifies this`records, this`badProgram, this`textUsage
      ensures Valid()
      ensures var expected := PlaceCode(old(records), old(badProgram), pass, old(defaultBranchSize));
        match expected
        case Failure(m) => st == Fatal(m)
        case Success(p) => st == Ok && records == p.records && textUsage == p.pc && changed == p.changed && badProgram == p.bad
    {
      ghost var rs0 := records;
      var pc;
      st, changed, pc := PlaceRecords(pass);
      if st.Ok? {
        textUsage := pc;
      }
      ShapeKeepsValid(rs0);
    }

    /** The loop of `placeCode`: each record in turn until end of file, stopping at the first error. */
    method PlaceRecords(pass: nat) returns (st: Status, changed: bool, pc: u16)
      requires WellFormed(records)
      modifies this`records, this`badProgram
      ensures SameShape(old(records), records)
      ensures match PlaceCode(old(records), old(badProgram), pass, defaultBranchSize)
        case Failure(m) => st == Fatal(m)
        case Success(p) => st == Ok && records == p.records && pc == p.pc && changed == p.changed && badProgram == p.bad
    {
      ghost var expected := PlaceCode(records, badProgram, pass, defaultBranchSize);
      ghost var rs0 := records;
      changed, pc, st := false, START_ADDRESS, Ok;
      var i := 0;
      while i < |records| && !records[i].Eof?
        invariant i <= |records| && WellFormed(records) && SameShape(rs0, records) && st == Ok
        invariant PlaceFrom(records, i, pc, changed, badProgram, pass, defaultBranchSize) == expected
        decreases |records| - i
      {
        ghost var before := records;
        PlaceFromStep(records, i, pc, changed, badProgram, pass, defaultBranchSize);
        st, pc, changed := PlaceRecord(i, pc, changed, pass);
        if st.Fatal? {
          return;
        }
        SameShapeTrans(rs0, before, records);
        i := i + 1;
      }
    }

    /** Rewriting records in place without changing their shape keeps the assembler valid. */
    lemma ShapeKeepsValid(rs0: seq<Record>)
      requires WellFormed(rs0) && AllFit(rs0) && IsHead(rs0, lastSymbol)
      requires scopePointers.Length == SCOPE_STACK_SIZE && scopePointer < SCOPE_STACK_SIZE
      requires forall k :: 0 <= k < scopePointer ==> IsHead(rs0, scopePointers[k])
      requires defaultBranchSize == 2 || defaultBranchSize == 5
      requires SameShape(rs0, records)
      ensures Valid()
    {
      SameShapeKeeps(rs0, records);
      KeepsHeads(rs0);
    }
  }

  /** `Extends` is transitive. */
  lemma ExtendsTrans(a: seq<Record>, b: seq<Record>, c: seq<Record>)
    requires Extends(a, b) && Extends(b, c)
    ensures Extends(a, c)
  {
  }

  lemma SameShapeTrans(a: seq<Record>, b: seq<Record>, c: seq<Record>)
    requires SameShape(a, b) && SameShape(b, c)
    ensures SameShape(a, c)
  {
  }
}
