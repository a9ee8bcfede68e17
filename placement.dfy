/**
 * Code placement: one pass over the records assigns every label the address
 * it will have in the output, and every expression record an encoding
 * length. Relative branches start at the default branch size and are
 * relaxed between the 2-byte form and the 5-byte form (an inverted branch
 * over a `jmp`) until a pass changes no length.
 */
module Placement {
  import opened Base
  import opened Opcodes
  import opened Records

  /** Where the program text starts: after the 7-byte header. */
  const START_ADDRESS: u16 := 7

  /** A 16-bit value read as two's complement. */
  function Signed16(x: u16): (r: int)
    ensures -0x8000 <= r < 0x8000 && r % 0x1_0000 == x
  {
    if x < 0x8000 then x else x - 0x1_0000
  }

  /** The displacement of a branch at `pc` to `target + offset`, as the 16-bit `int` subtraction computes it. */
  function BranchDelta(target: u16, offset: u16, pc: u16): int
  {
    Signed16(((target + offset - pc - 2) % 0x1_0000) as u16)
  }

  /** A displacement the 2-byte branch can reach. */
  predicate InRange(delta: int) { -128 <= delta <= 127 }

  // --- Shrinking to zero page ------------------------------------------------

  /** As written: every opcode with an absolute form that has a zero-page twin (`BPROP_SHR`) is shrunk. */
  predicate ShrinksAsWritten(op: bv8): (s: bool)
    ensures s ==> GetInsnLength(op) == 3
  {
    GetInsnProps(op) & BPROP_SHR != 0
  }

  /** `jsr` has the SHR property, but clearing bit 3 leaves it a three-byte `jsr`. */
  lemma JsrShrinkKeepsThreeBytes()
    ensures ShrinksAsWritten(0x20) && (0x20 as bv8) & 0xf7 == 0x20 && GetInsnLength((0x20 as bv8) & 0xf7) == 3
  {
  }

  /** Corrected: shrink only opcodes whose cleared bit 3 gives their zero-page form, which excludes `jsr`. */
  predicate Shrinks(op: bv8): (s: bool)
    ensures s <==> ShrinksAsWritten(op) && GetInsnLength(op & 0xf7) == 2
  {
    ShrinksAsWritten(op) && op != 0x20
  }

  /** Every shrinkable opcode becomes a two-byte zero-page instruction of the same group. */
  lemma ShrinkGivesZeroPageForm(op: bv8)
    requires Shrinks(op)
    ensures GetInsnLength(op & 0xf7) == 2 && !IsRelative(op & 0xf7)
    ensures GetB(op) == B_ABS || GetB(op) == B_XOFF
    ensures GetB(op & 0xf7) == GetB(op) - 8
  {
  }

  // --- One expression record -------------------------------------------------

  datatype Sized = Sized(opcode: bv8, length: nat)

  /**
   * Record `j` is an instruction (not a byte or word constant) whose operand
   * is a zero-page symbol and whose opcode has a zero-page form.
   */
  predicate ZeroPageOperand(rs: seq<Record>, j: nat)
  {
    j < |rs| && rs[j].Expr? && rs[j].opcode != 0x00 && rs[j].opcode != 0xff &&
    rs[j].variable.Some? && rs[j].variable.value < |rs| && rs[rs[j].variable.value].Symbol? &&
    rs[rs[j].variable.value].kind == ZeroPage && Shrinks(rs[j].opcode)
  }

  /** The opcode and length the expression record at `i` gets when it sits at `pc`. */
  function ExprPlacement(rs: seq<Record>, i: nat, pc: u16, pass: nat, defaultBranchSize: nat): (r: Result<Sized>)
    requires i < |rs| && rs[i].Expr? && LocalOk(rs, i)
    ensures r.Success? && rs[i].opcode != 0x00 && rs[i].opcode != 0xff && !IsRelative(rs[i].opcode) ==>
      r.value.length == GetInsnLength(r.value.opcode) && !IsRelative(r.value.opcode)
    ensures r.Success? && IsRelative(rs[i].opcode) ==> r.value.opcode == rs[i].opcode && rs[i].variable.Some?
    ensures r.Success? && IsRelative(rs[i].opcode) && rs[i].variable.Some? && pass > 0 ==>
      (r.value.length == 2 <==> InRange(BranchDelta(rs[rs[i].variable.value].offset, rs[i].offset, pc))) &&
      r.value.length in {2, 5}
    ensures rs[i].opcode == 0x00 ==> r == Success(Sized(0x00, 1))
    ensures rs[i].opcode == 0xff ==> r == Success(Sized(0xff, 2))
    ensures ZeroPageOperand(rs, i) ==>
      r == Success(Sized(rs[i].opcode & 0xf7, 2)) && GetInsnLength(rs[i].opcode & 0xf7) == 2
    ensures r.Success? && !ZeroPageOperand(rs, i) ==> r.value.opcode == rs[i].opcode
    ensures r.Success? && rs[i].opcode != 0x00 && rs[i].opcode != 0xff && !ZeroPageOperand(rs, i) && !IsRelative(rs[i].opcode) ==>
      r.value.length == GetInsnLength(rs[i].opcode)
    ensures r.Success? && IsRelative(rs[i].opcode) && pass == 0 ==> r.value.length == defaultBranchSize
    ensures r.Failure? <==>
      IsRelative(rs[i].opcode) && rs[i].opcode != 0x00 && rs[i].opcode != 0xff && !ZeroPageOperand(rs, i) &&
      (rs[i].variable.None? || rs[rs[i].variable.value].kind != Text ||
       (pass > 0 && !InRange(BranchDelta(rs[rs[i].variable.value].offset, rs[i].offset, pc)) && defaultBranchSize == 2))
    ensures r.Failure? ==> r.message in {"relative branch to constant", "branch to non-text label", "out of range branch"}
  {
    var e := rs[i];
    var op := e.opcode;
    if op == 0x00 then Success(Sized(op, 1))
    else if op == 0xff then Success(Sized(op, 2))
    else if e.variable.Some? && rs[e.variable.value].kind == ZeroPage && Shrinks(op) then
      ShrinkGivesZeroPageForm(op);
      Success(Sized(op & 0xf7, 2))
    else if IsRelative(op) then
      if e.variable.None? then Failure("relative branch to constant")
      else if rs[e.variable.value].kind != Text then Failure("branch to non-text label")
      else if pass == 0 then Success(Sized(op, defaultBranchSize))
      else if InRange(BranchDelta(rs[e.variable.value].offset, e.offset, pc)) then Success(Sized(op, 2))
      else if defaultBranchSize == 2 then Failure("out of range branch")
      else Success(Sized(op, 5))
    else Success(Sized(op, GetInsnLength(op)))
  }

  // --- The pass ----------------------------------------------------------------

  /** How far a record moves the program counter. */
  function Advance(r: Record): nat
  {
    match r
    case Bytes(p) => |p|
    case Fill(n) => n
    case Expr(_, _, _, len, _) => len
    case _ => 0
  }

  /** The address of record `i`: the start address plus everything before it, in 16 bits. */
  function LayoutPc(rs: seq<Record>, i: nat): u16
    requires i <= |rs|
  {
    if i == 0 then START_ADDRESS else (LayoutPc(rs, i - 1) + Advance(rs[i - 1])) % 0x1_0000
  }

  datatype Placed = Placed(records: seq<Record>, pc: u16, changed: bool, bad: bool)

  /** Record `j` is a symbol that is still only referenced: the pass reports it and marks the program bad. */
  predicate Unresolved(rs: seq<Record>, j: nat)
  {
    j < |rs| && rs[j].Symbol? && rs[j].kind == Reference
  }

  /** Placement never changes a symbol's kind, so the unresolved symbols stay the same. */
  lemma SameShapeUnresolved(a: seq<Record>, b: seq<Record>, j: nat)
    requires SameShape(a, b)
    ensures Unresolved(a, j) <==> Unresolved(b, j)
  {
    if j < |a| {
      assert Skeleton(a[j]) == Skeleton(b[j]);
    }
  }

  /** An unresolved symbol from `i` on is the one at `i` or one after it. */
  lemma UnresolvedSplit(rs: seq<Record>, q: seq<Record>, i: nat)
    requires i < |rs| && SameShape(rs, q)
    ensures (exists j :: i <= j < |rs| && Unresolved(rs, j)) <==>
      Unresolved(rs, i) || exists j :: i + 1 <= j < |q| && Unresolved(q, j)
  {
    forall j | 0 <= j < |rs|
      ensures Unresolved(rs, j) <==> Unresolved(q, j)
    {
      SameShapeUnresolved(rs, q, j);
    }
  }

  /** Only an end-of-file record at the very end stops the pass early. */
  predicate EofLast(rs: seq<Record>)
  {
    forall j :: 0 <= j < |rs| - 1 ==> !rs[j].Eof?
  }

  /** No symbol is defined by two label definitions (a second definition is rejected when parsing). */
  predicate UniqueLabels(rs: seq<Record>)
  {
    forall j, k :: 0 <= j < k < |rs| && rs[j].LabelDef? && rs[k].LabelDef? ==> rs[j].symbol != rs[k].symbol
  }

  /** Every defined label holds the address of its definition. */
  predicate Consistent(rs: seq<Record>)
  {
    forall l :: 0 <= l < |rs| && rs[l].LabelDef? ==>
      rs[l].symbol < |rs| && rs[rs[l].symbol].Symbol? && rs[rs[l].symbol].offset == LayoutPc(rs, l)
  }

  /** Changing one record in a way that keeps its skeleton keeps the shape. */
  lemma UpdateKeepsShape(rs: seq<Record>, i: nat, r: Record)
    requires i < |rs| && Skeleton(r) == Skeleton(rs[i])
    ensures SameShape(rs, rs[i := r])
  {
  }

  /** The symbol at `s` takes the address `pc`; nothing else changes. */
  function SetOffset(rs: seq<Record>, s: nat, pc: u16): (r: seq<Record>)
    requires WellFormed(rs) && s < |rs| && rs[s].Symbol?
    ensures SameShape(rs, r) && WellFormed(r)
    ensures r[s].Symbol? && r[s].offset == pc
    ensures forall j :: 0 <= j < |rs| && j != s ==> r[j] == rs[j]
  {
    var sym := rs[s];
    var r := rs[s := Symbol(sym.kind, sym.variable, pc, sym.next, sym.name)];
    UpdateKeepsShape(rs, s, r[s]);
    SameShapeKeeps(rs, r);
    r
  }

  /** The expression record at `i` takes the placed opcode and length; nothing else changes. */
  function SetSize(rs: seq<Record>, i: nat, sized: Sized): (r: seq<Record>)
    requires WellFormed(rs) && i < |rs| && rs[i].Expr?
    ensures SameShape(rs, r) && WellFormed(r)
    ensures r[i].Expr? && r[i].opcode == sized.opcode && r[i].length == sized.length
    ensures forall j :: 0 <= j < |rs| && j != i ==> r[j] == rs[j]
  {
    var e := rs[i];
    var r := rs[i := Expr(sized.opcode, e.variable, e.offset, sized.length, e.post)];
    UpdateKeepsShape(rs, i, r[i]);
    SameShapeKeeps(rs, r);
    r
  }

  /**
   * The records after placing record `i` at address `pc`: a label
   * definition gives its symbol the address, an expression record gets its
   * placement, and every other record stays as it is.
   */
  function Place(rs: seq<Record>, i: nat, pc: u16, pass: nat, dbs: nat): (r: Result<seq<Record>>)
    requires i < |rs| && WellFormed(rs)
    ensures r.Success? ==> SameShape(rs, r.value) && WellFormed(r.value)
    ensures r.Success? ==> forall j :: 0 <= j < |rs| && j != i && !(rs[i].LabelDef? && j == rs[i].symbol) ==>
      r.value[j] == rs[j]
    ensures r.Success? && rs[i].LabelDef? ==> r.value[rs[i].symbol].offset == pc
  {
    assert LocalOk(rs, i);
    match rs[i]
    case LabelDef(s) => Success(SetOffset(rs, s, pc))
    case Expr(_, _, _, _, _) =>
      (match ExprPlacement(rs, i, pc, pass, dbs)
       case Failure(m) => Failure(m)
       case Success(sized) => Success(SetSize(rs, i, sized)))
    case _ => Success(rs)
  }

  /**
   * One step of the pass: place record `i`, advance the address past it,
   * note a changed expression length, and mark the program bad at a symbol
   * still only referenced.
   */
  function Step(rs: seq<Record>, i: nat, pc: u16, changed: bool, bad: bool, pass: nat, dbs: nat): (r: Result<Placed>)
    requires i < |rs| && WellFormed(rs)
    ensures r.Failure? <==> rs[i].Expr? && LocalOk(rs, i) && ExprPlacement(rs, i, pc, pass, dbs).Failure?
    ensures r.Success? ==> SameShape(rs, r.value.records) && WellFormed(r.value.records)
    ensures r.Success? ==> (r.value.bad <==> bad || Unresolved(rs, i))
  {
    match Place(rs, i, pc, pass, dbs)
    case Failure(m) => Failure(m)
    case Success(r) =>
      Success(Placed(r, (pc + Advance(r[i])) % 0x1_0000,
        changed || (rs[i].Expr? && r[i].length != rs[i].length),
        bad || (rs[i].Symbol? && rs[i].kind == Reference)))
  }

  /** `placeCode` from record `i` on: place each record in turn, stopping at end of file. */
  function PlaceFrom(rs: seq<Record>, i: nat, pc: u16, changed: bool, bad: bool, pass: nat, dbs: nat): (r: Result<Placed>)
    requires i <= |rs| && WellFormed(rs)
    ensures r.Success? ==> SameShape(rs, r.value.records) && WellFormed(r.value.records)
    ensures r.Success? ==> forall j :: 0 <= j < i && !rs[j].Symbol? ==> r.value.records[j] == rs[j]
    ensures r.Success? && changed ==> r.value.changed
    ensures r.Success? && bad ==> r.value.bad
    ensures r.Success? && EofLast(rs) ==>
      (r.value.changed <==> changed || exists j :: i <= j < |rs| && LengthChanged(rs, r.value.records, j))
    ensures r.Success? && EofLast(rs) ==> (r.value.bad <==> bad || exists j :: i <= j < |rs| && Unresolved(rs, j))
    decreases |rs| - i
  {
    if i == |rs| || rs[i].Eof? then Success(Placed(rs, pc, changed, bad))
    else
      match Step(rs, i, pc, changed, bad, pass, dbs)
      case Failure(m) => Failure(m)
      case Success(p) =>
        var r := PlaceFrom(p.records, i + 1, p.pc, p.changed, p.bad, pass, dbs);
        if r.Success? then
          StepIsFramed(rs, i, pc, changed, bad, pass, dbs);
          ChangedSplit(rs, p.records, r.value.records, i);
          UnresolvedSplit(rs, p.records, i);
          r
        else r
  }

  /** `PlaceFrom` is one `Step`, then the rest of the pass, or the step's error. */
  lemma PlaceFromStep(rs: seq<Record>, i: nat, pc: u16, changed: bool, bad: bool, pass: nat, dbs: nat)
    requires i < |rs| && WellFormed(rs) && !rs[i].Eof?
    ensures match Step(rs, i, pc, changed, bad, pass, dbs)
      case Failure(m) => PlaceFrom(rs, i, pc, changed, bad, pass, dbs) == Failure(m)
      case Success(p) => PlaceFrom(rs, i, pc, changed, bad, pass, dbs) == PlaceFrom(p.records, i + 1, p.pc, p.changed, p.bad, pass, dbs)
  {
  }

  /** `placeCode(pass)`: the whole pass from the start address. */
  function PlaceCode(rs: seq<Record>, bad: bool, pass: nat, dbs: nat): (r: Result<Placed>)
    requires WellFormed(rs)
    ensures r.Success? ==> SameShape(rs, r.value.records) && WellFormed(r.value.records) && (bad ==> r.value.bad)
    ensures r.Success? && EofLast(rs) ==>
      (r.value.changed <==> exists j :: 0 <= j < |rs| && LengthChanged(rs, r.value.records, j))
    ensures r.Success? && EofLast(rs) ==> (r.value.bad <==> bad || exists j :: 0 <= j < |rs| && Unresolved(rs, j))
  {
    PlaceFrom(rs, 0, START_ADDRESS, false, bad, pass, dbs)
  }

  // --- Properties of a pass ----------------------------------------------------

  /** Records that move the program counter equally give the same addresses. */
  lemma {:induction false} LayoutAgrees(a: seq<Record>, b: seq<Record>, n: nat)
    requires n <= |a| && n <= |b|
    requires forall k :: 0 <= k < n ==> Advance(a[k]) == Advance(b[k])
    ensures LayoutPc(a, n) == LayoutPc(b, n)
  {
    if n > 0 {
      LayoutAgrees(a, b, n - 1);
    }
  }

  /** Record `j` is an expression record whose length differs between `a` and `b`. */
  predicate LengthChanged(a: seq<Record>, b: seq<Record>, j: nat)
  {
    j < |a| && j < |b| && a[j].Expr? && b[j].Expr? && a[j].length != b[j].length
  }

  /** A length change from `i` on is one at `i` or one after it. */
  lemma ChangedSplit(rs: seq<Record>, q: seq<Record>, res: seq<Record>, i: nat)
    requires i < |rs| && SameShape(rs, q) && SameShape(q, res)
    requires forall j :: 0 <= j < |rs| && j != i && rs[j].Expr? ==> q[j] == rs[j]
    requires rs[i].Expr? ==> res[i] == q[i]
    ensures (exists j :: i <= j < |rs| && LengthChanged(rs, res, j)) <==>
      LengthChanged(rs, q, i) || exists j :: i + 1 <= j < |rs| && LengthChanged(q, res, j)
  {
    assert forall j :: i < j < |rs| ==> LengthChanged(q, res, j) == LengthChanged(rs, res, j);
    assert LengthChanged(rs, res, i) == LengthChanged(rs, q, i);
  }

  /**
   * `q` is what placing record `i` at `pc` makes of `rs`, ending at `qpc`:
   * only the placed record and the symbol a label definition names change,
   * and the address advances past the placed record.
   */
  predicate StepFrame(rs: seq<Record>, q: seq<Record>, i: nat, pc: u16, qpc: u16)
  {
    i < |rs| && SameShape(rs, q) && WellFormed(q) &&
    (forall j :: 0 <= j < |rs| && j != i && !(rs[i].LabelDef? && j == rs[i].symbol) ==> q[j] == rs[j]) &&
    (forall j :: 0 <= j < |rs| && j != i ==> Advance(q[j]) == Advance(rs[j])) &&
    (rs[i].LabelDef? ==> rs[i].symbol < |rs| && q[rs[i].symbol].Symbol? && q[rs[i].symbol].offset == pc) &&
    (!rs[i].Expr? ==> q[i] == rs[i]) &&
    qpc == (pc + Advance(q[i])) % 0x1_0000 &&
    (UniqueLabels(rs) ==> UniqueLabels(q)) &&
    (EofLast(rs) ==> EofLast(q))
  }

  /** Sequences of the same shape end and define labels alike. */
  lemma ShapeKeepsOrder(a: seq<Record>, b: seq<Record>)
    requires SameShape(a, b)
    ensures EofLast(a) ==> EofLast(b)
    ensures UniqueLabels(a) ==> UniqueLabels(b)
  {
    forall j | 0 <= j < |a|
      ensures (a[j].Eof? <==> b[j].Eof?) && (a[j].LabelDef? || b[j].LabelDef? ==> a[j] == b[j])
    {
      assert Skeleton(a[j]) == Skeleton(b[j]);
    }
  }

  /** A successful step is framed as `StepFrame` says. */
  lemma StepIsFramed(rs: seq<Record>, i: nat, pc: u16, changed: bool, bad: bool, pass: nat, dbs: nat)
    requires i < |rs| && WellFormed(rs) && Step(rs, i, pc, changed, bad, pass, dbs).Success?
    ensures var q := Step(rs, i, pc, changed, bad, pass, dbs).value;
      StepFrame(rs, q.records, i, pc, q.pc) && q.changed == (changed || LengthChanged(rs, q.records, i)) &&
      (rs[i].Expr? ==> ExprPlacement(rs, i, pc, pass, dbs) == Success(Sized(q.records[i].opcode, q.records[i].length)))
  {
    var q := Step(rs, i, pc, changed, bad, pass, dbs).value;
    PlaceFramed(rs, i, pc, pass, dbs);
    ShapeKeepsOrder(rs, q.records);
  }

  /** A successful placement moves no other record's address and, for an expression, records its placement. */
  lemma PlaceFramed(rs: seq<Record>, i: nat, pc: u16, pass: nat, dbs: nat)
    requires i < |rs| && WellFormed(rs) && Place(rs, i, pc, pass, dbs).Success?
    ensures var r := Place(rs, i, pc, pass, dbs).value;
      (forall j :: 0 <= j < |rs| && j != i ==> Advance(r[j]) == Advance(rs[j])) &&
      (!rs[i].Expr? ==> r[i] == rs[i]) &&
      (rs[i].LabelDef? ==> rs[i].symbol < |rs| && r[rs[i].symbol].Symbol?) &&
      (rs[i].Expr? ==> ExprPlacement(rs, i, pc, pass, dbs) == Success(Sized(r[i].opcode, r[i].length)))
  {
    assert LocalOk(rs, i);
  }


  /** `LabelsUpTo(rs, n)`: every label defined before record `n` holds the address of its definition. */
  predicate LabelsUpTo(rs: seq<Record>, n: nat)
  {
    forall l :: 0 <= l < n && l < |rs| && rs[l].LabelDef? ==>
      rs[l].symbol < |rs| && rs[rs[l].symbol].Symbol? && rs[rs[l].symbol].offset == LayoutPc(rs, l)
  }

  /** One step keeps the labels before it placed and places the one it defines. */
  lemma {:induction false} LabelsStep(rs: seq<Record>, q: seq<Record>, i: nat, pc: u16, qpc: u16)
    requires WellFormed(rs) && UniqueLabels(rs) && StepFrame(rs, q, i, pc, qpc)
    requires pc == LayoutPc(rs, i) && LabelsUpTo(rs, i)
    ensures qpc == LayoutPc(q, i + 1) && LabelsUpTo(q, i + 1)
  {
    LayoutAgrees(q, rs, i);
    forall l | 0 <= l < i + 1 && q[l].LabelDef?
      ensures q[l].symbol < |q| && q[q[l].symbol].Symbol? && q[q[l].symbol].offset == LayoutPc(q, l)
    {
      assert LocalOk(rs, l);
      LayoutAgrees(q, rs, l);
    }
  }

  /** At the end of the buffer the labels placed so far are all of them, and the address is the layout's end. */
  lemma {:induction false} LabelsPlacedAtEnd(rs: seq<Record>, i: nat, pc: u16, changed: bool, bad: bool, pass: nat, dbs: nat)
    requires i <= |rs| && WellFormed(rs) && EofLast(rs) && (i == |rs| || rs[i].Eof?)
    requires pc == LayoutPc(rs, i) && LabelsUpTo(rs, i)
    ensures var res := PlaceFrom(rs, i, pc, changed, bad, pass, dbs).value;
      Consistent(res.records) && res.pc == LayoutPc(res.records, |rs|)
  {
    assert PlaceFrom(rs, i, pc, changed, bad, pass, dbs).value == Placed(rs, pc, changed, bad);
    if i < |rs| {
      assert i == |rs| - 1 && !rs[i].LabelDef?;
      assert LayoutPc(rs, |rs|) == LayoutPc(rs, i);
    }
    assert LabelsUpTo(rs, |rs|);
  }

  /**
   * After a pass, every label holds the address of its definition in the
   * final layout, and the address reached is the end of that layout.
   */
  lemma {:induction false} LabelsPlaced(rs: seq<Record>, i: nat, pc: u16, changed: bool, bad: bool, pass: nat, dbs: nat)
    requires i <= |rs| && WellFormed(rs) && EofLast(rs) && UniqueLabels(rs)
    requires pc == LayoutPc(rs, i) && LabelsUpTo(rs, i)
    requires PlaceFrom(rs, i, pc, changed, bad, pass, dbs).Success?
    ensures var res := PlaceFrom(rs, i, pc, changed, bad, pass, dbs).value;
      Consistent(res.records) && res.pc == LayoutPc(res.records, |rs|)
    decreases |rs| - i
  {
    if i == |rs| || rs[i].Eof? {
      LabelsPlacedAtEnd(rs, i, pc, changed, bad, pass, dbs);
    } else {
      var q := Step(rs, i, pc, changed, bad, pass, dbs).value;
      StepIsFramed(rs, i, pc, changed, bad, pass, dbs);
      LabelsStep(rs, q.records, i, pc, q.pc);
      LabelsPlaced(q.records, i + 1, q.pc, q.changed, q.bad, pass, dbs);
      assert PlaceFrom(rs, i, pc, changed, bad, pass, dbs) == PlaceFrom(q.records, i + 1, q.pc, q.changed, q.bad, pass, dbs);
    }
  }

  /**
   * Every instruction from `i` on whose operand is a zero-page symbol is
   * shrunk by the pass: bit 3 of its opcode is cleared and it takes two
   * bytes.
   */
  lemma {:induction false} ShrinkPlaced(rs: seq<Record>, i: nat, pc: u16, changed: bool, bad: bool, pass: nat, dbs: nat)
    requires i <= |rs| && WellFormed(rs) && EofLast(rs)
    requires PlaceFrom(rs, i, pc, changed, bad, pass, dbs).Success?
    ensures var out := PlaceFrom(rs, i, pc, changed, bad, pass, dbs).value.records;
      forall j :: i <= j < |rs| && ZeroPageOperand(rs, j) ==>
        out[j].Expr? && out[j].opcode == rs[j].opcode & 0xf7 && out[j].length == 2
    decreases |rs| - i
  {
    if i == |rs| || rs[i].Eof? {
      assert PlaceFrom(rs, i, pc, changed, bad, pass, dbs).value.records == rs;
      assert forall j :: i <= j < |rs| ==> rs[j].Eof?;
    } else {
      var q := Step(rs, i, pc, changed, bad, pass, dbs).value;
      PlaceFromStep(rs, i, pc, changed, bad, pass, dbs);
      StepIsFramed(rs, i, pc, changed, bad, pass, dbs);
      ShrinkStep(rs, q.records, i, pc, q.pc, pass, dbs);
      ShrinkPlaced(q.records, i + 1, q.pc, q.changed, q.bad, pass, dbs);
      var out := PlaceFrom(q.records, i + 1, q.pc, q.changed, q.bad, pass, dbs).value.records;
      assert PlaceFrom(rs, i, pc, changed, bad, pass, dbs).value.records == out;
      ShrinkCarries(rs, q.records, out, i);
    }
  }

  /** The shrink done at `i` and the shrinks done after it together cover every zero-page operand from `i` on. */
  lemma ShrinkCarries(rs: seq<Record>, q: seq<Record>, out: seq<Record>, i: nat)
    requires i < |rs| && |q| == |rs| && |out| == |rs|
    requires ZeroPageOperand(rs, i) ==> q[i].Expr? && q[i].opcode == rs[i].opcode & 0xf7 && q[i].length == 2
    requires forall j :: i < j < |rs| && ZeroPageOperand(rs, j) ==> ZeroPageOperand(q, j) && q[j] == rs[j]
    requires forall j :: i + 1 <= j < |q| && ZeroPageOperand(q, j) ==>
      out[j].Expr? && out[j].opcode == q[j].opcode & 0xf7 && out[j].length == 2
    requires forall j :: 0 <= j < i + 1 && !q[j].Symbol? ==> out[j] == q[j]
    ensures forall j :: i <= j < |rs| && ZeroPageOperand(rs, j) ==>
      out[j].Expr? && out[j].opcode == rs[j].opcode & 0xf7 && out[j].length == 2
  {
  }

  /** A step shrinks the instruction it places and leaves the later ones to shrink as before. */
  lemma ShrinkStep(rs: seq<Record>, q: seq<Record>, i: nat, pc: u16, qpc: u16, pass: nat, dbs: nat)
    requires WellFormed(rs) && StepFrame(rs, q, i, pc, qpc)
    requires rs[i].Expr? ==> ExprPlacement(rs, i, pc, pass, dbs) == Success(Sized(q[i].opcode, q[i].length))
    ensures ZeroPageOperand(rs, i) ==> q[i].Expr? && q[i].opcode == rs[i].opcode & 0xf7 && q[i].length == 2
    ensures forall j :: i < j < |rs| && ZeroPageOperand(rs, j) ==> ZeroPageOperand(q, j) && q[j] == rs[j]
  {
    if rs[i].Expr? {
      assert Skeleton(q[i]) == Skeleton(rs[i]);
    }
    forall j | i < j < |rs| && ZeroPageOperand(rs, j)
      ensures ZeroPageOperand(q, j) && q[j] == rs[j]
    {
      var v := rs[j].variable.value;
      assert Skeleton(q[v]) == Skeleton(rs[v]);
    }
  }

  /** Two record sequences whose records all move the address equally lay out identically. */
  lemma {:induction false} LayoutAgreesAll(a: seq<Record>, b: seq<Record>)
    requires |a| == |b|
    requires forall k :: 0 <= k < |a| ==> Advance(a[k]) == Advance(b[k])
    ensures forall n :: 0 <= n <= |a| ==> LayoutPc(a, n) == LayoutPc(b, n)
  {
    forall n | 0 <= n <= |a|
      ensures LayoutPc(a, n) == LayoutPc(b, n)
    {
      LayoutAgrees(a, b, n);
    }
  }

  /** A relative branch at `j` whose target label is defined at `l`. */
  predicate BranchTo(rs: seq<Record>, j: nat, l: nat)
  {
    j < |rs| && l < |rs| && rs[j].Expr? && IsRelative(rs[j].opcode) &&
    rs[j].variable.Some? && rs[l] == LabelDef(rs[j].variable.value)
  }

  /** The branch at `j` to the label at `l` uses the short form exactly when the final layout lets it reach. */
  predicate BranchSettled(rs: seq<Record>, j: nat, l: nat)
    requires BranchTo(rs, j, l)
  {
    rs[j].length == 2 <==> InRange(BranchDelta(LayoutPc(rs, l), rs[j].offset, LayoutPc(rs, j)))
  }

  /**
   * A step that changes no length keeps the layout and the labels as they
   * were, and decides its own branch against that layout.
   */
  lemma QuietStep(rs: seq<Record>, q: seq<Record>, i: nat, pc: u16, qpc: u16, pass: nat, dbs: nat)
    requires WellFormed(rs) && Consistent(rs) && StepFrame(rs, q, i, pc, qpc) && pc == LayoutPc(rs, i)
    requires pass > 0 && !LengthChanged(rs, q, i)
    requires rs[i].Expr? ==> ExprPlacement(rs, i, pc, pass, dbs) == Success(Sized(q[i].opcode, q[i].length))
    ensures forall n :: 0 <= n <= |q| ==> LayoutPc(q, n) == LayoutPc(rs, n)
    ensures Consistent(q) && qpc == LayoutPc(q, i + 1)
    ensures forall l :: BranchTo(q, i, l) ==> BranchSettled(q, i, l)
  {
    QuietLayout(rs, q, i, pc, qpc);
    forall l | BranchTo(q, i, l)
      ensures BranchSettled(q, i, l)
    {
      assert Skeleton(q[i]) == Skeleton(rs[i]);
      assert LocalOk(rs, l);
    }
  }

  /** A step that changes no length keeps the layout, and with it every label's address. */
  lemma QuietLayout(rs: seq<Record>, q: seq<Record>, i: nat, pc: u16, qpc: u16)
    requires WellFormed(rs) && Consistent(rs) && StepFrame(rs, q, i, pc, qpc) && pc == LayoutPc(rs, i)
    requires !LengthChanged(rs, q, i)
    ensures forall n :: 0 <= n <= |q| ==> LayoutPc(q, n) == LayoutPc(rs, n)
    ensures Consistent(q) && qpc == LayoutPc(q, i + 1)
  {
    if rs[i].Expr? {
      assert Skeleton(q[i]) == Skeleton(rs[i]);
    }
    LayoutAgreesAll(q, rs);
    forall l | 0 <= l < |q| && q[l].LabelDef?
      ensures q[l].symbol < |q| && q[q[l].symbol].Symbol? && q[q[l].symbol].offset == LayoutPc(q, l)
    {
      assert LocalOk(rs, l);
    }
  }

  /** Record `l` is a label definition of `v` in `a` exactly when it is in a sequence of the same shape. */
  lemma ShapeKeepsLabels(a: seq<Record>, b: seq<Record>)
    requires SameShape(a, b)
    ensures forall l :: 0 <= l < |a| && a[l].LabelDef? ==> b[l] == a[l]
    ensures forall l :: 0 <= l < |b| && b[l].LabelDef? ==> a[l] == b[l]
  {
    forall l | 0 <= l < |a|
      ensures a[l].LabelDef? || b[l].LabelDef? ==> a[l] == b[l]
    {
      assert Skeleton(a[l]) == Skeleton(b[l]);
    }
  }

  /**
   * A pass that starts from consistent labels and changes no length has
   * decided every branch against the final layout.
   */
  lemma {:induction false} QuietPassSettles(rs: seq<Record>, i: nat, pc: u16, bad: bool, pass: nat, dbs: nat)
    requires i <= |rs| && WellFormed(rs) && EofLast(rs) && pass > 0
    requires Consistent(rs) && pc == LayoutPc(rs, i)
    requires PlaceFrom(rs, i, pc, false, bad, pass, dbs).Success?
    requires !PlaceFrom(rs, i, pc, false, bad, pass, dbs).value.changed
    ensures var out := PlaceFrom(rs, i, pc, false, bad, pass, dbs).value.records;
      (forall n :: 0 <= n <= |rs| ==> LayoutPc(out, n) == LayoutPc(rs, n)) &&
      forall j, l :: i <= j && BranchTo(out, j, l) ==> BranchSettled(out, j, l)
    decreases |rs| - i
  {
    if i == |rs| || rs[i].Eof? {
      QuietPassEnds(rs, i, pc, bad, pass, dbs);
    } else {
      var q := Step(rs, i, pc, false, bad, pass, dbs).value;
      var out := PlaceFrom(q.records, i + 1, q.pc, q.changed, q.bad, pass, dbs).value.records;
      assert PlaceFrom(rs, i, pc, false, bad, pass, dbs).value.records == out;
      QuietStepFrom(rs, i, pc, bad, pass, dbs);
      QuietPassSettles(q.records, i + 1, q.pc, q.bad, pass, dbs);
      SettledCarries(q.records, out, i);
    }
  }

  /** One step of a quiet pass keeps the layout and the labels, and settles the branch it places. */
  lemma QuietStepFrom(rs: seq<Record>, i: nat, pc: u16, bad: bool, pass: nat, dbs: nat)
    requires i < |rs| && WellFormed(rs) && EofLast(rs) && Consistent(rs) && pass > 0 && pc == LayoutPc(rs, i)
    requires Step(rs, i, pc, false, bad, pass, dbs).Success? && !Step(rs, i, pc, false, bad, pass, dbs).value.changed
    ensures var q := Step(rs, i, pc, false, bad, pass, dbs).value;
      WellFormed(q.records) && EofLast(q.records) && Consistent(q.records) && SameShape(rs, q.records) &&
      q.pc == LayoutPc(q.records, i + 1) &&
      (forall n :: 0 <= n <= |q.records| ==> LayoutPc(q.records, n) == LayoutPc(rs, n)) &&
      (forall l :: BranchTo(q.records, i, l) ==> BranchSettled(q.records, i, l))
  {
    StepIsFramed(rs, i, pc, false, bad, pass, dbs);
    var q := Step(rs, i, pc, false, bad, pass, dbs).value;
    QuietStep(rs, q.records, i, pc, q.pc, pass, dbs);
  }

  /** At the end of the buffer a pass leaves the records as they are, and no branch is left to place. */
  lemma {:induction false} QuietPassEnds(rs: seq<Record>, i: nat, pc: u16, bad: bool, pass: nat, dbs: nat)
    requires i <= |rs| && WellFormed(rs) && EofLast(rs) && (i == |rs| || rs[i].Eof?)
    ensures var out := PlaceFrom(rs, i, pc, false, bad, pass, dbs).value.records;
      out == rs && forall j, l :: i <= j && BranchTo(out, j, l) ==> BranchSettled(out, j, l)
  {
    assert forall j, l :: i <= j && BranchTo(rs, j, l) ==> rs[j].Eof?;
  }

  /** A settled branch stays settled when the rest of the pass keeps its record, the labels and the layout. */
  lemma {:induction false} SettledCarries(q: seq<Record>, out: seq<Record>, i: nat)
    requires SameShape(q, out) && i < |q| && (!q[i].Symbol? ==> out[i] == q[i])
    requires forall n :: 0 <= n <= |out| ==> LayoutPc(out, n) == LayoutPc(q, n)
    requires forall l :: BranchTo(q, i, l) ==> BranchSettled(q, i, l)
    ensures forall l :: BranchTo(out, i, l) ==> BranchSettled(out, i, l)
  {
    ShapeKeepsLabels(q, out);
    assert Skeleton(out[i]) == Skeleton(q[i]);
    forall l | BranchTo(out, i, l)
      ensures BranchSettled(out, i, l)
    {
      assert out[i] == q[i];
      assert BranchTo(q, i, l);
    }
  }

  /**
   * The relaxation loop's exit condition is sound: when the pass after any
   * pass changes no length, every label sits at its final address and every
   * branch has the form its final displacement calls for.
   */
  lemma {:induction false} QuietPassIsFinal(rs: seq<Record>, bad: bool, pass: nat, dbs: nat)
    requires WellFormed(rs) && EofLast(rs) && UniqueLabels(rs)
    requires PlaceCode(rs, bad, pass, dbs).Success?
    requires var first := PlaceCode(rs, bad, pass, dbs).value;
      PlaceCode(first.records, first.bad, pass + 1, dbs).Success? &&
      !PlaceCode(first.records, first.bad, pass + 1, dbs).value.changed
    ensures var first := PlaceCode(rs, bad, pass, dbs).value;
      var last := PlaceCode(first.records, first.bad, pass + 1, dbs).value;
      Consistent(last.records) && last.pc == LayoutPc(last.records, |rs|) &&
      forall j, l :: BranchTo(last.records, j, l) ==> BranchSettled(last.records, j, l)
  {
    var first := PlaceCode(rs, bad, pass, dbs).value;
    LabelsPlaced(rs, 0, START_ADDRESS, false, bad, pass, dbs);
    ShapeKeepsOrder(rs, first.records);
    QuietPassSettles(first.records, 0, START_ADDRESS, first.bad, pass + 1, dbs);
    LabelsPlaced(first.records, 0, START_ADDRESS, false, first.bad, pass + 1, dbs);
  }
}
