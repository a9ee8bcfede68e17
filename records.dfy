/**
 * The assembler's in-memory program: a packed buffer of variable-size
 * records, each starting with a descriptor byte whose top three bits give
 * the record type and whose low five bits give the record size. Here the
 * buffer is a sequence of `Record` values; pointers between records (a
 * symbol's `next`, an expression's `variable`, a label definition's symbol)
 * are indices into that sequence.
 *
 * The symbol table is a linked list threaded through the symbol records,
 * newest first, starting at `lastSymbol`.
 */
module Records {
  import opened Base

  // record types, as stored in the top three bits of the descriptor
  const RECORD_EOF: nat := 0
  const RECORD_BYTES: nat := 1
  const RECORD_EXPR: nat := 2
  const RECORD_SYMBOL: nat := 3
  const RECORD_LABELDEF: nat := 4
  const RECORD_FILL: nat := 5

  /** Bytes of a symbol record before its name: descriptor, type, variable, offset, next. */
  const SYMBOL_HEADER: nat := 8
  /** The largest record size a descriptor can hold. */
  const MAX_RECORD: nat := 0x1f

  datatype SymbolKind = Uninitialised | Reference | ZeroPage | Bss | Text | Computed

  /** The letter the symbol listing prints for each kind ("URZBTC"). */
  function KindChar(k: SymbolKind): char
  {
    match k
    case Uninitialised => 'U'
    case Reference => 'R'
    case ZeroPage => 'Z'
    case Bss => 'B'
    case Text => 'T'
    case Computed => 'C'
  }

  datatype Record =
    | Bytes(payload: seq<byte>)
    | Fill(count: u16)
      /** opcode 0x00 and 0xff are the magic values for a byte and a word constant */
    | Expr(opcode: bv8, variable: Option<nat>, offset: u16, length: nat, post: byte)
    | Symbol(kind: SymbolKind, variable: Option<nat>, offset: u16, next: Option<nat>, name: string)
    | LabelDef(symbol: nat)
    | Eof

  /** The record's size in the buffer, descriptor included. */
  function Size(r: Record): nat
  {
    match r
    case Bytes(p) => 1 + |p|
    case Fill(_) => 3
    case Expr(_, _, _, _, _) => 8
    case Symbol(_, _, _, _, name) => SYMBOL_HEADER + |name|
    case LabelDef(_) => 3
    case Eof => 1
  }

  function TypeCode(r: Record): nat
  {
    match r
    case Bytes(_) => RECORD_BYTES
    case Fill(_) => RECORD_FILL
    case Expr(_, _, _, _, _) => RECORD_EXPR
    case Symbol(_, _, _, _, _) => RECORD_SYMBOL
    case LabelDef(_) => RECORD_LABELDEF
    case Eof => RECORD_EOF
  }

  /** The descriptor byte: type in the top three bits, size in the low five. */
  function Descriptor(r: Record): (d: byte)
    requires Size(r) <= MAX_RECORD
    ensures d / 32 == TypeCode(r) && d % 32 == Size(r)
  {
    TypeCode(r) * 32 + Size(r)
  }

  /** A record's descriptor can describe it. */
  predicate Fits(r: Record)
  {
    Size(r) <= MAX_RECORD
  }

  /** The descriptor tells the type and the size apart: two fitting records with one descriptor have the same type and size. */
  lemma DescriptorDetermines(a: Record, b: Record)
    requires Fits(a) && Fits(b) && Descriptor(a) == Descriptor(b)
    ensures TypeCode(a) == TypeCode(b) && Size(a) == Size(b)
  {
  }

  // --- Byte records --------------------------------------------------------

  /** Payload bytes a bytes record can hold: the size field counts the descriptor too. */
  const MAX_PAYLOAD: nat := MAX_RECORD - 1

  /**
   * `emitByte`: the byte goes into the last record when that is a bytes
   * record that still has room, otherwise into a new bytes record.
   */
  function Emit(rs: seq<Record>, b: byte): seq<Record>
  {
    if |rs| > 0 && rs[|rs| - 1].Bytes? && |rs[|rs| - 1].payload| < MAX_PAYLOAD then
      rs[..|rs| - 1] + [Bytes(rs[|rs| - 1].payload + [b])]
    else
      rs + [Bytes([b])]
  }

  /** All payload bytes, in record order. */
  function Payload(rs: seq<Record>): seq<byte>
  {
    if rs == [] then []
    else Payload(rs[..|rs| - 1]) + (if rs[|rs| - 1].Bytes? then rs[|rs| - 1].payload else [])
  }

  /** Emitting a sequence of bytes one by one. */
  function EmitAll(rs: seq<Record>, bs: seq<byte>): seq<Record>
    decreases |bs|
  {
    if bs == [] then rs else EmitAll(Emit(rs, bs[0]), bs[1..])
  }

  /** All records fit their descriptors. */
  predicate AllFit(rs: seq<Record>)
  {
    forall i :: 0 <= i < |rs| ==> Fits(rs[i])
  }

  /** One emitted byte reads back after all earlier ones, and every record still fits. */
  lemma {:induction false} EmitAppends(rs: seq<Record>, b: byte)
    requires AllFit(rs)
    ensures Payload(Emit(rs, b)) == Payload(rs) + [b]
    ensures AllFit(Emit(rs, b))
    ensures |rs| <= |Emit(rs, b)| <= |rs| + 1
    ensures forall i :: 0 <= i < |rs| - 1 ==> Emit(rs, b)[i] == rs[i]
  {
    var out := Emit(rs, b);
    if |rs| > 0 && rs[|rs| - 1].Bytes? && |rs[|rs| - 1].payload| < MAX_PAYLOAD {
      assert out[..|out| - 1] == rs[..|rs| - 1];
    } else {
      assert out[..|out| - 1] == rs;
    }
  }

  /** Bytes emitted one after another read back in order, however they are split into records. */
  lemma {:induction false} EmitAllAppends(rs: seq<Record>, bs: seq<byte>)
    requires AllFit(rs)
    ensures Payload(EmitAll(rs, bs)) == Payload(rs) + bs
    ensures AllFit(EmitAll(rs, bs))
    decreases |bs|
  {
    if bs != [] {
      var next := Emit(rs, bs[0]);
      EmitAppends(rs, bs[0]);
      EmitAllAppends(next, bs[1..]);
      assert EmitAll(rs, bs) == EmitAll(next, bs[1..]);
      calc {
        Payload(next) + bs[1..];
        (Payload(rs) + [bs[0]]) + bs[1..];
        { assert [bs[0]] + bs[1..] == bs; }
        Payload(rs) + bs;
      }
    }
  }

  /** Emitting one more byte after a sequence is emitting the longer sequence. */
  lemma {:induction false} EmitAllSnoc(rs: seq<Record>, bs: seq<byte>, b: byte)
    ensures EmitAll(rs, bs + [b]) == Emit(EmitAll(rs, bs), b)
    decreases |bs|
  {
    if bs == [] {
      assert [] + [b] == [b];
    } else {
      assert (bs + [b])[1..] == bs[1..] + [b];
      EmitAllSnoc(Emit(rs, bs[0]), bs[1..], b);
    }
  }

  /** Emitting the first `k + 1` bytes is emitting the first `k`, then byte `k`. */
  lemma {:induction false} EmitAllPrefix(rs: seq<Record>, bs: seq<byte>, k: nat)
    requires k < |bs|
    ensures EmitAll(rs, bs[..k + 1]) == Emit(EmitAll(rs, bs[..k]), bs[k])
  {
    EmitAllSnoc(rs, bs[..k], bs[k]);
    assert bs[..k] + [bs[k]] == bs[..k + 1];
  }

  /** After `Emit` the last record is a bytes record that fits and ends with the byte. */
  lemma EmitEndsWith(rs: seq<Record>, b: byte)
    ensures var out := Emit(rs, b);
      0 < |out| && |rs| <= |out| <= |rs| + 1 &&
      out[|out| - 1].Bytes? && 0 < |out[|out| - 1].payload| <= MAX_PAYLOAD &&
      out[|out| - 1].payload[|out[|out| - 1].payload| - 1] == b
  {
  }

  /** A new bytes record is opened only when the last one is full or is not a bytes record. */
  lemma EmitOpensOnlyWhenNeeded(rs: seq<Record>, b: byte)
    ensures |Emit(rs, b)| == |rs| + 1 <==>
      |rs| == 0 || !rs[|rs| - 1].Bytes? || |rs[|rs| - 1].payload| >= MAX_PAYLOAD
  {
  }

  // --- The symbol list and references ------------------------------------

  /** `h` is null or points at a symbol record. */
  predicate IsHead(rs: seq<Record>, h: Option<nat>)
  {
    h.None? || (h.value < |rs| && rs[h.value].Symbol?)
  }

  /**
   * The pointers held by record `i` are sound: a symbol's `next` points at an
   * older symbol, expressions and symbols refer to symbols, and a label
   * definition defines another record, which is a symbol.
   */
  predicate LocalOk(rs: seq<Record>, i: nat)
    requires i < |rs|
  {
    match rs[i]
    case Symbol(_, v, _, next, _) => IsHead(rs, next) && (next.Some? ==> next.value < i) && IsHead(rs, v)
    case Expr(_, v, _, _, _) => IsHead(rs, v)
    case LabelDef(sym) => sym < |rs| && sym != i && rs[sym].Symbol?
    case _ => true
  }

  predicate WellFormed(rs: seq<Record>)
  {
    forall i :: 0 <= i < |rs| ==> LocalOk(rs, i)
  }

  function Rank(h: Option<nat>): nat
  {
    if h.None? then 0 else h.value + 1
  }

  /** The symbols reachable from `h`, newest first. */
  function Chain(rs: seq<Record>, h: Option<nat>): (c: seq<nat>)
    requires WellFormed(rs) && IsHead(rs, h)
    ensures forall k :: 0 <= k < |c| ==> c[k] < |rs| && rs[c[k]].Symbol?
    decreases Rank(h)
  {
    if h.None? then [] else assert LocalOk(rs, h.value); [h.value] + Chain(rs, rs[h.value].next)
  }

  /** The list runs from the newest symbol to the oldest. */
  lemma {:induction false} ChainDecreasing(rs: seq<Record>, h: Option<nat>)
    requires WellFormed(rs) && IsHead(rs, h)
    ensures forall j, k :: 0 <= j < k < |Chain(rs, h)| ==> Chain(rs, h)[j] > Chain(rs, h)[k]
    ensures h.Some? ==> forall k :: 0 <= k < |Chain(rs, h)| ==> Chain(rs, h)[k] <= h.value
    decreases Rank(h)
  {
    if h.Some? {
      assert LocalOk(rs, h.value);
      ChainDecreasing(rs, rs[h.value].next);
    }
  }

  /** `lookupSymbol`: the first symbol on the list from `h` with this name. */
  function Find(rs: seq<Record>, h: Option<nat>, name: string): (r: Option<nat>)
    requires WellFormed(rs) && IsHead(rs, h)
    ensures r.Some? ==> r.value in Chain(rs, h) && rs[r.value].name == name
    ensures r.None? ==> forall k :: 0 <= k < |Chain(rs, h)| ==> rs[Chain(rs, h)[k]].name != name
    decreases Rank(h)
  {
    if h.None? then None
    else if rs[h.value].name == name then h
    else assert LocalOk(rs, h.value); Find(rs, rs[h.value].next, name)
  }

  /** Lookup finds the most recently appended symbol of that name on the list. */
  lemma {:induction false} FindNewest(rs: seq<Record>, h: Option<nat>, name: string, k: nat)
    requires WellFormed(rs) && IsHead(rs, h)
    requires k < |Chain(rs, h)| && rs[Chain(rs, h)[k]].name == name
    ensures Find(rs, h, name).Some? && Find(rs, h, name).value >= Chain(rs, h)[k]
    decreases Rank(h)
  {
    ChainDecreasing(rs, h);
    if rs[h.value].name != name {
      assert k > 0;
      assert LocalOk(rs, h.value);
      FindNewest(rs, rs[h.value].next, name, k - 1);
    }
  }

  /** Two versions of a record with the same type and the same pointers and name. */
  predicate SameRefs(x: Record, y: Record)
  {
    TypeCode(x) == TypeCode(y) &&
    (x.Symbol? ==> y.name == x.name && y.next == x.next && y.variable == x.variable) &&
    (x.Expr? ==> y.variable == x.variable) &&
    (x.LabelDef? ==> y.symbol == x.symbol)
  }

  /** `b` starts with the records of `a`, up to payloads, offsets, lengths, opcodes and kinds. */
  predicate Extends(a: seq<Record>, b: seq<Record>)
  {
    |a| <= |b| && forall i :: 0 <= i < |a| ==> SameRefs(a[i], b[i])
  }

  /** Records added after `a`, and fields changed in it, keep every pointer of `a` sound. */
  lemma ExtendsKeeps(a: seq<Record>, b: seq<Record>)
    requires Extends(a, b) && WellFormed(a)
    requires forall i :: |a| <= i < |b| ==> LocalOk(b, i)
    ensures WellFormed(b)
    ensures forall h: Option<nat> :: IsHead(a, h) ==> IsHead(b, h)
  {
    forall i | 0 <= i < |a| ensures LocalOk(b, i) {
      assert LocalOk(a, i);
      assert SameRefs(a[i], b[i]);
      match a[i]
      case Symbol(_, v, _, next, _) =>
        assert next.Some? ==> SameRefs(a[next.value], b[next.value]);
        assert v.Some? ==> SameRefs(a[v.value], b[v.value]);
      case Expr(_, v, _, _, _) =>
        assert v.Some? ==> SameRefs(a[v.value], b[v.value]);
      case LabelDef(sym) =>
        assert SameRefs(a[sym], b[sym]);
      case _ =>
    }
    forall h: Option<nat> | IsHead(a, h) ensures IsHead(b, h) {
      if h.Some? {
        assert SameRefs(a[h.value], b[h.value]);
      }
    }
  }

  /**
   * The list from a saved head is untouched by records added or fields
   * changed after it was saved: this is what lets `popScope` forget the
   * symbols of the scope.
   */
  lemma {:induction false} FindStable(a: seq<Record>, b: seq<Record>, h: Option<nat>, name: string)
    requires WellFormed(a) && WellFormed(b) && IsHead(a, h) && Extends(a, b)
    ensures IsHead(b, h) && Chain(b, h) == Chain(a, h) && Find(b, h, name) == Find(a, h, name)
    decreases Rank(h)
  {
    if h.Some? {
      assert SameRefs(a[h.value], b[h.value]);
      assert LocalOk(a, h.value);
      FindStable(a, b, a[h.value].next, name);
    }
  }

  /** After appending a symbol and making it the head, lookup finds it by its name and everything else as before. */
  lemma {:induction false} FindAfterAppend(rs: seq<Record>, h: Option<nat>, s: Record, name: string)
    requires WellFormed(rs) && IsHead(rs, h) && s.Symbol? && s.next == h && IsHead(rs, s.variable)
    ensures WellFormed(rs + [s]) && IsHead(rs + [s], Some(|rs|))
    ensures Find(rs + [s], Some(|rs|), name) == if s.name == name then Some(|rs|) else Find(rs, h, name)
  {
    var b := rs + [s];
    assert Extends(rs, b) by {
      forall i | 0 <= i < |rs| ensures SameRefs(rs[i], b[i]) {
        assert b[i] == rs[i];
      }
    }
    assert IsHead(b, h) && IsHead(b, s.variable);
    ExtendsKeeps(rs, b);
    FindStable(rs, b, h, name);
  }

  /** Appending a record whose own pointers are sound keeps the buffer well formed and every head a head. */
  lemma AppendKeeps(rs: seq<Record>, r: Record)
    requires WellFormed(rs) && LocalOk(rs + [r], |rs|)
    ensures Extends(rs, rs + [r]) && WellFormed(rs + [r])
    ensures forall h: Option<nat> :: IsHead(rs, h) ==> IsHead(rs + [r], h)
  {
    var b := rs + [r];
    forall i | 0 <= i < |rs| ensures SameRefs(rs[i], b[i]) {
      assert b[i] == rs[i];
    }
    ExtendsKeeps(rs, b);
  }

  /** Emitting a byte keeps the buffer well formed and every head a head. */
  lemma EmitKeeps(rs: seq<Record>, b: byte)
    requires WellFormed(rs)
    ensures Extends(rs, Emit(rs, b)) && WellFormed(Emit(rs, b))
    ensures forall h: Option<nat> :: IsHead(rs, h) ==> IsHead(Emit(rs, b), h)
  {
    var out := Emit(rs, b);
    if |rs| > 0 && rs[|rs| - 1].Bytes? && |rs[|rs| - 1].payload| < MAX_PAYLOAD {
      forall i | 0 <= i < |rs| ensures SameRefs(rs[i], out[i]) {
        if i < |rs| - 1 {
          assert out[i] == rs[i];
        }
      }
      ExtendsKeeps(rs, out);
    } else {
      AppendKeeps(rs, Bytes([b]));
    }
  }

  /** Changing a record's non-pointer fields keeps the buffer well formed and every head a head. */
  lemma UpdateKeeps(rs: seq<Record>, i: nat, r: Record)
    requires WellFormed(rs) && i < |rs| && SameRefs(rs[i], r)
    ensures Extends(rs, rs[i := r]) && WellFormed(rs[i := r])
    ensures forall h: Option<nat> :: IsHead(rs, h) ==> IsHead(rs[i := r], h)
  {
    var b := rs[i := r];
    forall j | 0 <= j < |rs| ensures SameRefs(rs[j], b[j]) {
      if j != i {
        assert b[j] == rs[j];
      }
    }
    ExtendsKeeps(rs, b);
  }

  // --- Shape ---------------------------------------------------------------

  /** A record with the fields placement rewrites (opcode, length, symbol offset) cleared. */
  function Skeleton(r: Record): Record
  {
    match r
    case Expr(_, v, off, _, post) => Expr(0, v, off, 0, post)
    case Symbol(k, v, _, next, name) => Symbol(k, v, 0, next, name)
    case _ => r
  }

  /** Same records up to opcodes, lengths and symbol offsets. */
  predicate SameShape(a: seq<Record>, b: seq<Record>)
  {
    |a| == |b| && forall i :: 0 <= i < |a| ==> Skeleton(a[i]) == Skeleton(b[i])
  }

  /** Everything the symbol list and references depend on survives a shape-preserving change. */
  lemma SameShapeKeeps(a: seq<Record>, b: seq<Record>)
    requires SameShape(a, b)
    ensures Extends(a, b) && Extends(b, a)
    ensures WellFormed(a) ==> WellFormed(b)
    ensures AllFit(a) ==> AllFit(b)
  {
    forall i | 0 <= i < |a| ensures SameRefs(a[i], b[i]) && SameRefs(b[i], a[i]) && Size(a[i]) == Size(b[i]) {
      assert Skeleton(a[i]) == Skeleton(b[i]);
    }
    if WellFormed(a) {
      ExtendsKeeps(a, b);
    }
  }
}
