/** The value written to SCTLR_EL1 (`register_constants`, `sctlr_and_mask` and
    the checks of bits A and SPAN in scripts/buildcheck_kernel_asm_invariants.py),
    against the machine: straight-line code, one destination to an instruction. */
module Sctlr {
  import opened Options

  type Register = nat

  /** The shifts a mov or movk can have. */
  type Shift = s: nat | s == 0 || s == 16 || s == 32 || s == 48

  /** An instruction, as the check's patterns sort it; `wide` is the x form.
      Immediates are the low 64 bits of the number written. */
  datatype Insn =
    | Mov(wide: bool, d: Register, imm: bv64, shift: Shift)
    | Movk(wide: bool, d: Register, half: bv16, shift: Shift)
    | AndImm(wide: bool, d: Register, n: Register, imm: bv64)
    | BicImm(wide: bool, d: Register, n: Register, imm: bv64)
    | AndReg(wide: bool, d: Register, n: Register, m: Register)
    | Computes(d: Register)
    | NoDestination
    | WriteSctlr(s: Register)

  function Destination(i: Insn): Option<Register> {
    match i
    case NoDestination => None
    case WriteSctlr(_) => None
    case _ => Some(i.d)
  }

  function Shifted(v: bv64, shift: Shift): bv64 {
    match shift
    case 16 => v << 16
    case 32 => v << 32
    case 48 => v << 48
    case _ => v
  }

  function Inserted(old': bv64, imm: bv16, shift: Shift): bv64 {
    (old' & !Shifted(0xFFFF, shift)) | Shifted(imm as bv64, shift)
  }

  function Narrowed(v: bv64, wide: bool): bv64 {
    if wide then v else v & 0xFFFF_FFFF
  }

  // ----- What they do to a register's halves -----

  /** A register as its four 16-bit halves, the lowest first. */
  datatype Halves = Halves(h0: bv16, h1: bv16, h2: bv16, h3: bv16)

  function HalvesOf(v: bv64): Halves {
    Halves((v & 0xFFFF) as bv16, ((v >> 16) & 0xFFFF) as bv16, ((v >> 32) & 0xFFFF) as bv16, ((v >> 48) & 0xFFFF) as bv16)
  }

  /** Registers with the same halves are the same. */
  lemma {:induction false} SameHalves(v: bv64, w: bv64)
    requires HalvesOf(v) == HalvesOf(w)
    ensures v == w
  {
  }

  /** mov: the number, moved up by whole halves. */
  function MovHalves(h: Halves, shift: Shift): Halves {
    if shift == 0 then h
    else if shift == 16 then Halves(0, h.h0, h.h1, h.h2)
    else if shift == 32 then Halves(0, 0, h.h0, h.h1)
    else Halves(0, 0, 0, h.h0)
  }

  /** movk: one half replaced, the others kept. */
  function MovkHalves(h: Halves, half: bv16, shift: Shift): Halves {
    if shift == 0 then h.(h0 := half)
    else if shift == 16 then h.(h1 := half)
    else if shift == 32 then h.(h2 := half)
    else h.(h3 := half)
  }

  lemma {:induction false} Mov0(v: bv64)
    ensures HalvesOf(Shifted(v, 0)) == MovHalves(HalvesOf(v), 0)
  {
  }

  lemma {:induction false} Mov16(v: bv64)
    ensures HalvesOf(Shifted(v, 16)) == MovHalves(HalvesOf(v), 16)
  {
  }

  lemma {:induction false} Mov32(v: bv64)
    ensures HalvesOf(Shifted(v, 32)) == MovHalves(HalvesOf(v), 32)
  {
  }

  lemma {:induction false} Mov48(v: bv64)
    ensures HalvesOf(Shifted(v, 48)) == MovHalves(HalvesOf(v), 48)
  {
  }

  lemma {:induction false} MovIs(v: bv64, shift: Shift)
    ensures HalvesOf(Shifted(v, shift)) == MovHalves(HalvesOf(v), shift)
  {
    if shift == 0 {
      Mov0(v);
    } else if shift == 16 {
      Mov16(v);
    } else if shift == 32 {
      Mov32(v);
    } else {
      Mov48(v);
    }
  }

  lemma {:induction false} Movk0(v: bv64, half: bv16)
    ensures HalvesOf(Inserted(v, half, 0)) == MovkHalves(HalvesOf(v), half, 0)
  {
  }

  lemma {:induction false} Movk16(v: bv64, half: bv16)
    ensures HalvesOf(Inserted(v, half, 16)) == MovkHalves(HalvesOf(v), half, 16)
  {
  }

  lemma {:induction false} Movk32(v: bv64, half: bv16)
    ensures HalvesOf(Inserted(v, half, 32)) == MovkHalves(HalvesOf(v), half, 32)
  {
  }

  lemma {:induction false} Movk48(v: bv64, half: bv16)
    ensures HalvesOf(Inserted(v, half, 48)) == MovkHalves(HalvesOf(v), half, 48)
  {
  }

  lemma {:induction false} MovkIs(v: bv64, half: bv16, shift: Shift)
    ensures HalvesOf(Inserted(v, half, shift)) == MovkHalves(HalvesOf(v), half, shift)
  {
    if shift == 0 {
      Movk0(v, half);
    } else if shift == 16 {
      Movk16(v, half);
    } else if shift == 32 {
      Movk32(v, half);
    } else {
      Movk48(v, half);
    }
  }

  /** A narrow result has no upper halves. */
  lemma {:induction false} NarrowIs(v: bv64, wide: bool)
    ensures HalvesOf(Narrowed(v, wide)) == if wide then HalvesOf(v) else Halves(HalvesOf(v).h0, HalvesOf(v).h1, 0, 0)
  {
  }

  // ----- The machine -----

  function Through(v: bv64, mask: bv64, wide: bool): bv64 {
    Narrowed(v & mask, wide)
  }

  /** What an instruction leaves in its destination: from what that held, its
      first and second source, or a computation the check does not follow. */
  function Result(i: Insn, held: bv64, first: bv64, second: bv64, computed: bv64): bv64 {
    match i
    case Mov(w, _, imm, shift) => Narrowed(Shifted(imm, shift), w)
    case Movk(w, _, half, shift) => Narrowed(Inserted(held, half, shift), w)
    case AndImm(w, _, _, imm) => Through(first, imm, w)
    case BicImm(w, _, _, imm) => Through(first, !imm, w)
    case AndReg(w, _, _, _) => Through(first, second, w)
    case _ => computed
  }

  function First(i: Insn): Register {
    if i.AndImm? || i.BicImm? || i.AndReg? then i.n else 0
  }

  function Second(i: Insn): Register {
    if i.AndReg? then i.m else 0
  }

  /** What a register holds after the first i instructions; `start` is the
      initial register file, `other` what each remaining instruction computes. */
  function Value(body: seq<Insn>, i: nat, start: Register -> bv64, other: nat -> bv64, r: Register): bv64
    requires i <= |body|
  {
    if i == 0 then start(r)
    else if Destination(body[i - 1]) != Some(r) then Value(body, i - 1, start, other, r)
    else Result(body[i - 1], Value(body, i - 1, start, other, r), Value(body, i - 1, start, other, First(body[i - 1])),
                Value(body, i - 1, start, other, Second(body[i - 1])), other(i - 1))
  }

  // ----- The check -----

  type Constants = map<Register, bv64>

  function Constant(consts: Constants, i: Insn): Constants {
    match i
    case Mov(_, d, imm, shift) => consts[d := Shifted(imm, shift)]
    case Movk(_, d, imm, shift) => consts[d := Inserted(if d in consts then consts[d] else 0, imm, shift)]
    case _ => consts
  }

  function ConstantsOf(body: seq<Insn>, i: nat): Constants
    requires i <= |body|
  {
    if i == 0 then map[] else Constant(ConstantsOf(body, i - 1), body[i - 1])
  }

  method RegisterConstants(body: seq<Insn>, n: nat) returns (consts: Constants)
    requires n <= |body|
    ensures consts == ConstantsOf(body, n)
  {
    consts := map[];
    for i := 0 to n
      invariant consts == ConstantsOf(body, i)
    {
      match body[i] {
        case Mov(_, d, imm, shift) =>
          consts := consts[d := Shifted(imm, shift)];
        case Movk(_, d, imm, shift) =>
          var old' := if d in consts then consts[d] else 0;
          consts := consts[d := Inserted(old', imm, shift)];
        case _ =>
      }
    }
  }

  /** The last instruction before w that defines the register. */
  ghost predicate IsProducer(body: seq<Insn>, w: nat, r: Register, p: nat)
    requires w <= |body|
  {
    p < w && Destination(body[p]) == Some(r) && forall i | p < i < w :: Destination(body[i]) != Some(r)
  }

  method FindProducer(body: seq<Insn>, w: nat, r: Register) returns (p: Option<nat>)
    requires w <= |body|
    ensures p.Some? ==> IsProducer(body, w, r, p.value)
    ensures p == None ==> forall i | 0 <= i < w :: Destination(body[i]) != Some(r)
  {
    var i := w;
    while i > 0
      invariant 0 <= i <= w && forall k | i <= k < w :: Destination(body[k]) != Some(r)
    {
      i := i - 1;
      if Destination(body[i]) == Some(r) {
        return Some(i);
      }
    }
    p := None;
  }

  /** The mask the producer applies, where the check can tell. */
  function MaskOf(body: seq<Insn>, w: nat, p: nat): Option<bv64>
    requires p < w <= |body|
  {
    match body[p]
    case AndImm(_, _, _, imm) => Some(imm)
    case BicImm(_, _, _, imm) => Some(!imm)
    case AndReg(_, _, _, m) => if m in ConstantsOf(body, w) then Some(ConstantsOf(body, w)[m]) else None
    case _ => None
  }

  ghost predicate OnlyWrite(body: seq<Insn>, w: nat) {
    w < |body| && body[w].WriteSctlr? && forall i | 0 <= i < |body| && body[i].WriteSctlr? :: i == w
  }

  /** The one write, if there is exactly one. */
  method FindWrite(body: seq<Insn>) returns (w: Option<nat>)
    ensures w.Some? ==> OnlyWrite(body, w.value)
    ensures w == None ==> forall i: nat :: !OnlyWrite(body, i)
  {
    var writes: seq<nat> := [];
    for i := 0 to |body|
      invariant forall k | 0 <= k < |writes| :: writes[k] < i && body[writes[k]].WriteSctlr?
      invariant forall k, l | 0 <= k < l < |writes| :: writes[k] != writes[l]
      invariant forall k | 0 <= k < i && body[k].WriteSctlr? :: k in writes
    {
      if body[i].WriteSctlr? {
        writes := writes + [i];
      }
    }
    if |writes| != 1 {
      if |writes| > 1 {
        assert writes[0] != writes[1];
      }
      return None;
    }
    w := Some(writes[0]);
  }

  method FindMask(body: seq<Insn>, w: nat, p: nat) returns (mask: Option<bv64>)
    requires p < w <= |body|
    ensures mask == MaskOf(body, w, p)
  {
    mask := None;
    match body[p] {
      case AndImm(_, _, _, imm) =>
        mask := Some(imm);
      case BicImm(_, _, _, imm) =>
        mask := Some(!imm);
      case AndReg(_, _, _, m) =>
        var consts := RegisterConstants(body, w);
        if m in consts {
          mask := Some(consts[m]);
        }
      case _ =>
    }
  }

  /** The one write at w is fed by p, through a mask without the bit. */
  ghost predicate Masked(body: seq<Insn>, bit: bv64, w: nat, p: nat) {
    OnlyWrite(body, w) && IsProducer(body, w, body[w].s, p) && MaskOf(body, w, p).Some? && Clear(MaskOf(body, w, p).value, bit)
  }

  /** The check of one bit. */
  method Clears(body: seq<Insn>, bit: bv64) returns (ok: bool)
    ensures ok <==> exists w: nat, p: nat :: Masked(body, bit, w, p)
  {
    var w := FindWrite(body);
    if w == None {
      return false;
    }
    var p := FindProducer(body, w.value, body[w.value].s);
    if p == None {
      return false;
    }
    var mask := FindMask(body, w.value, p.value);
    ok := mask.Some? && Clear(mask.value, bit);
    OnePair(body, bit, w.value, p.value);
  }

  lemma {:induction false} OnePair(body: seq<Insn>, bit: bv64, w: nat, p: nat)
    requires OnlyWrite(body, w) && IsProducer(body, w, body[w].s, p)
    ensures (exists v: nat, q: nat :: Masked(body, bit, v, q)) <==> Masked(body, bit, w, p)
  {
    forall v: nat, q: nat | Masked(body, bit, v, q)
      ensures v == w && q == p
    {
      assert body[v].WriteSctlr?;
      assert !(q < p) && !(p < q);
    }
  }

  // ----- Constants are the machine's -----

  /** The register is built by wide mov and movk alone, a mov first. */
  ghost predicate BuiltWide(body: seq<Insn>, n: nat, r: Register)
    requires n <= |body|
  {
    && (forall i | 0 <= i < n && Destination(body[i]) == Some(r) :: (body[i].Mov? || body[i].Movk?) && body[i].wide)
    && forall i | 0 <= i < n && Destination(body[i]) == Some(r) && body[i].Movk? ::
         exists k :: 0 <= k < i && Destination(body[k]) == Some(r) && body[k].Mov?
  }

  lemma {:induction false} ConstantsAt(body: seq<Insn>, n: nat, r: Register)
    requires 0 < n <= |body| && Destination(body[n - 1]) != Some(r)
    ensures r in ConstantsOf(body, n) <==> r in ConstantsOf(body, n - 1)
    ensures r in ConstantsOf(body, n) ==> ConstantsOf(body, n)[r] == ConstantsOf(body, n - 1)[r]
  {
  }

  lemma {:induction false} DefinedConstant(body: seq<Insn>, n: nat, r: Register, k: nat)
    requires k < n <= |body| && Destination(body[k]) == Some(r) && body[k].Mov?
    ensures r in ConstantsOf(body, n)
  {
    if k < n - 1 {
      DefinedConstant(body, n - 1, r, k);
    }
  }

  /** Where the check knows a register so built, it knows the machine's value, whatever the start. */
  lemma {:induction false} ConstantsAreValues(body: seq<Insn>, n: nat, r: Register, start: Register -> bv64, other: nat -> bv64)
    requires n <= |body| && BuiltWide(body, n, r) && r in ConstantsOf(body, n)
    ensures ConstantsOf(body, n)[r] == Value(body, n, start, other, r)
  {
    if n > 0 {
      assert BuiltWide(body, n - 1, r);
      if Destination(body[n - 1]) != Some(r) {
        ConstantsAt(body, n, r);
        ConstantsAreValues(body, n - 1, r, start, other);
      } else if body[n - 1].Movk? {
        var k :| 0 <= k < n - 1 && Destination(body[k]) == Some(r) && body[k].Mov?;
        DefinedConstant(body, n - 1, r, k);
        ConstantsAreValues(body, n - 1, r, start, other);
      }
    }
  }

  /** A narrow mov or movk leaves the machine's upper half clear, so the
      constant it gives agrees exactly when that has no upper half. */
  lemma {:induction false} NarrowAgrees(body: seq<Insn>, n: nat, d: Register, start: Register -> bv64, other: nat -> bv64)
    requires 0 < n <= |body| && (body[n - 1].Mov? || body[n - 1].Movk?) && !body[n - 1].wide && body[n - 1].d == d
    requires body[n - 1].Movk? ==>
               d in ConstantsOf(body, n - 1) && ConstantsOf(body, n - 1)[d] == Value(body, n - 1, start, other, d)
    ensures d in ConstantsOf(body, n)
    ensures ConstantsOf(body, n)[d] == Value(body, n, start, other, d)
            <==> Narrowed(ConstantsOf(body, n)[d], false) == ConstantsOf(body, n)[d]
  {
    assert Value(body, n, start, other, d) == Narrowed(ConstantsOf(body, n)[d], false);
  }

  // ----- The bit is clear -----

  predicate Clear(v: bv64, bit: bv64) {
    v & bit == 0
  }

  lemma {:induction false} MaskedClear(v: bv64, mask: bv64, bit: bv64, wide: bool)
    requires Clear(mask, bit)
    ensures Clear(Through(v, mask, wide), bit)
  {
  }

  lemma {:induction false} Undisturbed(body: seq<Insn>, p: nat, w: nat, r: Register, start: Register -> bv64, other: nat -> bv64)
    requires p <= w <= |body| && forall i | p <= i < w :: Destination(body[i]) != Some(r)
    ensures Value(body, w, start, other, r) == Value(body, p, start, other, r)
  {
    if p < w {
      Undisturbed(body, p, w - 1, r, start, other);
    }
  }

  /** The mask register, if there is one, is built wide and left alone after use. */
  ghost predicate MaskBuilt(body: seq<Insn>, w: nat, p: nat)
    requires p < w <= |body|
  {
    body[p].AndReg? ==> BuiltWide(body, w, body[p].m) && forall i | p <= i < w :: Destination(body[i]) != Some(body[p].m)
  }

  lemma {:induction false} MaskRegister(body: seq<Insn>, w: nat, p: nat, start: Register -> bv64, other: nat -> bv64)
    requires p < w <= |body| && MaskBuilt(body, w, p) && body[p].AndReg? && body[p].m in ConstantsOf(body, w)
    ensures Value(body, p, start, other, body[p].m) == ConstantsOf(body, w)[body[p].m]
  {
    ConstantsAreValues(body, w, body[p].m, start, other);
    Undisturbed(body, p, w, body[p].m, start, other);
  }

  /** The mask an instruction applies, given its second source. */
  function MaskIn(i: Insn, second: bv64): Option<bv64> {
    match i
    case AndImm(_, _, _, imm) => Some(imm)
    case BicImm(_, _, _, imm) => Some(!imm)
    case AndReg(_, _, _, _) => Some(second)
    case _ => None
  }

  lemma {:induction false} ResultMasked(i: Insn, held: bv64, first: bv64, second: bv64, computed: bv64)
    requires MaskIn(i, second).Some?
    ensures Result(i, held, first, second, computed) == Through(first, MaskIn(i, second).value, i.wide)
  {
  }

  /** A masking instruction leaves the bit clear. */
  lemma {:induction false} ResultClear(i: Insn, bit: bv64, held: bv64, first: bv64, second: bv64, computed: bv64)
    requires MaskIn(i, second).Some? && Clear(MaskIn(i, second).value, bit)
    ensures Clear(Result(i, held, first, second, computed), bit)
  {
    ResultMasked(i, held, first, second, computed);
    MaskedClear(first, MaskIn(i, second).value, bit, i.wide);
  }

  lemma {:induction false} ProducedClear(body: seq<Insn>, bit: bv64, w: nat, p: nat, start: Register -> bv64, other: nat -> bv64)
    requires p < w <= |body| && MaskOf(body, w, p).Some? && Clear(MaskOf(body, w, p).value, bit) && MaskBuilt(body, w, p)
    ensures Clear(Value(body, p + 1, start, other, body[p].d), bit)
  {
    if body[p].AndReg? {
      MaskRegister(body, w, p, start, other);
    }
    ResultClear(body[p], bit, Value(body, p, start, other, body[p].d), Value(body, p, start, other, First(body[p])),
                Value(body, p, start, other, Second(body[p])), other(p));
  }

  // ----- Exactly when it is -----

  const ONES: bv64 := 0xFFFF_FFFF_FFFF_FFFF

  /** The bits of a are among those of b. */
  predicate Below(a: bv64, b: bv64) {
    a & b == a
  }

  lemma {:induction false} NarrowedBelow(a: bv64, b: bv64, wide: bool)
    requires Below(a, b)
    ensures Below(Narrowed(a, wide), Narrowed(b, wide))
  {
  }

  lemma {:induction false} ThroughBelow(a: bv64, b: bv64, m: bv64, n: bv64, wide: bool)
    requires Below(a, b) && Below(m, n)
    ensures Below(Through(a, m, wide), Through(b, n, wide))
  {
    assert Below(a & m, b & n);
    NarrowedBelow(a & m, b & n, wide);
  }

  lemma {:induction false} ReplacedBelow(a: bv64, b: bv64, field: bv64, v: bv64)
    requires Below(a, b)
    ensures Below((a & !field) | v, (b & !field) | v)
  {
  }

  lemma {:induction false} SelfBelow(v: bv64)
    ensures Below(v, v)
  {
  }

  lemma {:induction false} InsertedBelow(a: bv64, b: bv64, half: bv16, shift: Shift, wide: bool)
    requires Below(a, b)
    ensures Below(Narrowed(Inserted(a, half, shift), wide), Narrowed(Inserted(b, half, shift), wide))
  {
    ReplacedBelow(a, b, Shifted(0xFFFF, shift), Shifted(half as bv64, shift));
    NarrowedBelow(Inserted(a, half, shift), Inserted(b, half, shift), wide);
  }

  lemma {:induction false} MaskInBelow(i: Insn, b: bv64, b': bv64)
    requires Below(b, b') && MaskIn(i, b).Some?
    ensures MaskIn(i, b').Some? && Below(MaskIn(i, b).value, MaskIn(i, b').value)
  {
    SelfBelow(MaskIn(i, b).value);
  }

  lemma {:induction false} MaskingBelow(i: Insn, h: bv64, a: bv64, b: bv64, c: bv64, h': bv64, a': bv64, b': bv64, c': bv64)
    returns (v: bv64, v': bv64)
    requires Below(a, a') && Below(b, b') && MaskIn(i, b).Some?
    ensures v == Result(i, h, a, b, c) && v' == Result(i, h', a', b', c') && Below(v, v')
  {
    v, v' := Result(i, h, a, b, c), Result(i, h', a', b', c');
    MaskInBelow(i, b, b');
    ResultMasked(i, h, a, b, c);
    ResultMasked(i, h', a', b', c');
    ThroughBelow(a, a', MaskIn(i, b).value, MaskIn(i, b').value, i.wide);
  }

  lemma {:induction false} MovingBelow(i: Insn, h: bv64, a: bv64, b: bv64, c: bv64, h': bv64, a': bv64, b': bv64, c': bv64)
    returns (v: bv64, v': bv64)
    requires (i.Mov? || i.Movk?) && Below(h, h')
    ensures v == Result(i, h, a, b, c) && v' == Result(i, h', a', b', c') && Below(v, v')
  {
    v, v' := Result(i, h, a, b, c), Result(i, h', a', b', c');
    if i.Movk? {
      InsertedBelow(h, h', i.half, i.shift, i.wide);
    } else {
      SelfBelow(Result(i, h, a, b, c));
    }
  }

  /** Every instruction is monotone in each bit of what it reads. */
  lemma {:induction false} ResultBelow(i: Insn, h: bv64, a: bv64, b: bv64, c: bv64, h': bv64, a': bv64, b': bv64, c': bv64)
    returns (v: bv64, v': bv64)
    requires Below(h, h') && Below(a, a') && Below(b, b') && Below(c, c')
    ensures v == Result(i, h, a, b, c) && v' == Result(i, h', a', b', c') && Below(v, v')
  {
    if i.Mov? || i.Movk? {
      v, v' := MovingBelow(i, h, a, b, c, h', a', b', c');
    } else if MaskIn(i, b).Some? {
      v, v' := MaskingBelow(i, h, a, b, c, h', a', b', c');
    } else {
      v, v' := c, c';
    }
  }

  function AllOnes(n: nat): bv64 {
    ONES
  }

  /** What a register holds in the run where every unknown is all ones. */
  function Most(body: seq<Insn>, i: nat, r: Register): bv64
    requires i <= |body|
  {
    Value(body, i, AllOnes, AllOnes, r)
  }

  /** That run has every bit any run has. */
  lemma {:induction false} ValueBelowMost(body: seq<Insn>, i: nat, start: Register -> bv64, other: nat -> bv64, r: Register)
    requires i <= |body|
    ensures Below(Value(body, i, start, other, r), Most(body, i, r))
  {
    if i > 0 {
      ValueBelowMost(body, i - 1, start, other, r);
      if Destination(body[i - 1]) == Some(r) {
        var a, b := First(body[i - 1]), Second(body[i - 1]);
        ValueBelowMost(body, i - 1, start, other, a);
        ValueBelowMost(body, i - 1, start, other, b);
        var v, v' := ResultBelow(body[i - 1],
          Value(body, i - 1, start, other, r), Value(body, i - 1, start, other, a), Value(body, i - 1, start, other, b), other(i - 1),
          Most(body, i - 1, r), Most(body, i - 1, a), Most(body, i - 1, b), ONES);
      }
    }
  }

  lemma {:induction false} ClearBelow(a: bv64, b: bv64, bit: bv64)
    requires Below(a, b) && Clear(b, bit)
    ensures Clear(a, bit)
  {
  }

  /** A bit is clear in every run. */
  ghost predicate AlwaysClear(body: seq<Insn>, i: nat, r: Register, bit: bv64)
    requires i <= |body|
  {
    forall start: Register -> bv64, other: nat -> bv64 :: Clear(Value(body, i, start, other, r), bit)
  }

  /** A bit is clear in every run, from every register file and whatever the
      other instructions compute, exactly when it is clear in that one. */
  lemma {:induction false} AlwaysClearIff(body: seq<Insn>, i: nat, r: Register, bit: bv64)
    requires i <= |body|
    ensures AlwaysClear(body, i, r, bit) <==> Clear(Most(body, i, r), bit)
  {
    if Clear(Most(body, i, r), bit) {
      forall start, other ensures Clear(Value(body, i, start, other, r), bit) {
        ValueBelowMost(body, i, start, other, r);
        ClearBelow(Value(body, i, start, other, r), Most(body, i, r), bit);
      }
    } else {
      assert !Clear(Value(body, i, AllOnes, AllOnes, r), bit);
    }
  }

  /** What the masking instruction of an accepted body leaves in that run. */
  lemma {:induction false} MostWritten(body: seq<Insn>, bit: bv64, w: nat, p: nat)
    requires Masked(body, bit, w, p)
    ensures body[p].AndReg? ==>
              Most(body, w, body[w].s) == Through(Most(body, p, body[p].n), Most(body, p, body[p].m), body[p].wide)
    ensures !body[p].AndReg? ==> Clear(Most(body, w, body[w].s), bit)
  {
    Undisturbed(body, p + 1, w, body[w].s, AllOnes, AllOnes);
    if !body[p].AndReg? {
      ProducedClear(body, bit, w, p, AllOnes, AllOnes);
    }
  }

  /** An accepted body writes the bit clear in every run exactly when it masks
      with an immediate, or its two registers share no such bit when every
      unknown is all ones. */
  lemma {:induction false} WrittenClearIff(body: seq<Insn>, bit: bv64, w: nat, p: nat)
    requires Masked(body, bit, w, p)
    ensures AlwaysClear(body, w, body[w].s, bit)
            <==> (body[p].AndReg? ==>
                    Clear(Through(Most(body, p, body[p].n), Most(body, p, body[p].m), body[p].wide), bit))
  {
    AlwaysClearIff(body, w, body[w].s, bit);
    MostWritten(body, bit, w, p);
  }

  /** A mask register built wide and left alone is such a case. */
  lemma {:induction false} WrittenClear(body: seq<Insn>, bit: bv64, w: nat, p: nat, start: Register -> bv64, other: nat -> bv64)
    requires Masked(body, bit, w, p) && MaskBuilt(body, w, p)
    ensures Clear(Value(body, w, start, other, body[w].s), bit)
  {
    ProducedClear(body, bit, w, p, AllOnes, AllOnes);
    Undisturbed(body, p + 1, w, body[w].s, AllOnes, AllOnes);
    AlwaysClearIff(body, w, body[w].s, bit);
  }

  const SCTLR_A: bv64 := 0x2
  const SCTLR_SPAN: bv64 := 0x80_0000

  /** Both checks passed: alignment checking is off and SPAN is clear in every
      run exactly when they are in the run of all ones. */
  lemma {:induction false} ActivationClears(body: seq<Insn>, w: nat, p: nat, v: nat, q: nat)
    requires Masked(body, SCTLR_A, w, p) && Masked(body, SCTLR_SPAN, v, q)
    ensures (v, q) == (w, p)
    ensures AlwaysClear(body, w, body[w].s, SCTLR_A) && AlwaysClear(body, w, body[w].s, SCTLR_SPAN)
            <==> (body[p].AndReg? ==>
                    var most := Through(Most(body, p, body[p].n), Most(body, p, body[p].m), body[p].wide);
                    Clear(most, SCTLR_A) && Clear(most, SCTLR_SPAN))
  {
    assert body[v].WriteSctlr?;
    assert !(q < p) && !(p < q);
    WrittenClearIff(body, SCTLR_A, w, p);
    WrittenClearIff(body, SCTLR_SPAN, w, p);
  }

  // ----- Bodies that pass and write the bit -----

  /** The check passes the body, and in some run the bit is set. */
  ghost predicate Slips(body: seq<Insn>, bit: bv64) {
    exists w: nat, p: nat :: Masked(body, bit, w, p) && !AlwaysClear(body, w, body[w].s, bit)
  }

  lemma {:induction false} SlipsByMost(body: seq<Insn>, bit: bv64, w: nat, p: nat)
    requires Masked(body, bit, w, p) && !Clear(Most(body, w, body[w].s), bit)
    ensures Slips(body, bit)
  {
    AlwaysClearIff(body, w, body[w].s, bit);
  }

  lemma {:induction false} SetInAll(bit: bv64)
    requires bit != 0
    ensures !Clear(Through(ONES, ONES, true), bit)
  {
  }

  /** A mask register changed by another instruction before its use. */
  lemma {:induction false} ChangedMaskSlips(bit: bv64)
    requires bit != 0
    ensures Slips([Mov(true, 9, 0, 0), Computes(9), AndReg(true, 8, 8, 9), WriteSctlr(8)], bit)
  {
    var body := [Mov(true, 9, 0, 0), Computes(9), AndReg(true, 8, 8, 9), WriteSctlr(8)];
    assert ConstantsOf(body, 1) == Constant(ConstantsOf(body, 0), body[0]);
    assert ConstantsOf(body, 3) == ConstantsOf(body, 2) == ConstantsOf(body, 1);
    assert Masked(body, bit, 3, 2);
    assert Most(body, 2, 9) == ONES;
    assert Most(body, 2, 8) == Most(body, 1, 8) == Most(body, 0, 8) == ONES;
    SetInAll(bit);
    SlipsByMost(body, bit, 3, 2);
  }

  /** A mask register cleared only after its use. */
  lemma {:induction false} LateMaskSlips(bit: bv64)
    requires bit != 0
    ensures Slips([Mov(true, 9, ONES, 0), AndReg(true, 8, 8, 9), Mov(true, 9, 0, 0), WriteSctlr(8)], bit)
  {
    var body := [Mov(true, 9, ONES, 0), AndReg(true, 8, 8, 9), Mov(true, 9, 0, 0), WriteSctlr(8)];
    assert ConstantsOf(body, 3) == Constant(ConstantsOf(body, 2), body[2]);
    assert Masked(body, bit, 3, 1);
    assert Most(body, 1, 9) == ONES;
    assert Most(body, 1, 8) == Most(body, 0, 8) == ONES;
    assert Most(body, 2, 8) == Through(ONES, ONES, true);
    SetInAll(bit);
    assert Most(body, 3, 8) == Most(body, 2, 8);
    SlipsByMost(body, bit, 3, 1);
  }

  /** A mask register built by a movk alone, over whatever it held. */
  lemma {:induction false} UnsetMaskSlips(bit: bv64)
    requires !Clear(!0xFFFF, bit)
    ensures Slips([Movk(true, 9, 0, 0), AndReg(true, 8, 8, 9), WriteSctlr(8)], bit)
  {
    var body := [Movk(true, 9, 0, 0), AndReg(true, 8, 8, 9), WriteSctlr(8)];
    assert ConstantsOf(body, 1) == Constant(ConstantsOf(body, 0), body[0]);
    assert ConstantsOf(body, 2) == ConstantsOf(body, 1);
    ZeroInserted();
    assert Masked(body, bit, 2, 1);
    assert Most(body, 1, 9) == Inserted(ONES, 0, 0);
    assert Most(body, 1, 8) == Most(body, 0, 8) == ONES;
    assert Most(body, 2, 8) == Through(ONES, Inserted(ONES, 0, 0), true);
    SlipsByMost(body, bit, 2, 1);
  }

  lemma {:induction false} ZeroInserted()
    ensures Inserted(0, 0, 0) == 0 && Through(ONES, Inserted(ONES, 0, 0), true) == !0xFFFF
  {
  }
}
