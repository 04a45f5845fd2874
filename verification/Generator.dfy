/** The code generator for method arguments: it turns a list of field types into two straight-line
    programs, an encoder and a decoder, packing runs of bits into octets as it goes.  The emitted
    programs are given a meaning here and proved to be each other's inverse. */
module Generator {
  import opened Wire

  datatype FieldType = Octet | Short | Long | LongLong | ShortStr | LongStr | Bit | TableField

  /** What one field contributes to the wire: a flag, or octets of its own.  `accepted` is false
      when the field's encoder refuses the value. */
  datatype Chunk = Flag(b: int) | Whole(accepted: bool, bytes: seq<byte>)

  ghost predicate Shaped(ts: seq<FieldType>, cs: seq<Chunk>) {
    |ts| == |cs| && forall i | 0 <= i < |ts| :: ts[i].Bit? <==> cs[i].Flag?
  }

  function Truth(b: int): (r: byte) { if b != 0 then 1 else 0 }

  // ----- bits -----

  function Pow2(k: nat): (r: nat)
    ensures r >= 1
  {
    if k == 0 then 1 else 2 * Pow2(k - 1)
  }

  /** `x & (1 << k)`. */
  predicate HasBit(x: nat, k: nat) {
    if k == 0 then x % 2 == 1 else HasBit(x / 2, k - 1)
  }

  /** `x | (1 << k)`. */
  function WithBit(x: nat, k: nat): nat {
    if HasBit(x, k) then x else x + Pow2(k)
  }

  /** The flags from `i` up to `j`, lowest bit first. */
  function Packed(cs: seq<Chunk>, i: nat, j: nat): (r: nat)
    requires j <= |cs| && forall k | i <= k < j :: cs[k].Flag?
    ensures i <= j ==> r < Pow2(j - i)
    decreases j - i
  {
    if i >= j then 0 else Truth(cs[i].b) + 2 * Packed(cs, i + 1, j)
  }

  lemma {:induction false} PackedHasBit(cs: seq<Chunk>, i: nat, j: nat, k: nat)
    requires i <= k < j <= |cs| && forall k | i <= k < j :: cs[k].Flag?
    ensures HasBit(Packed(cs, i, j), k - i) <==> cs[k].b != 0
    decreases j - i
  {
    var rest := Packed(cs, i + 1, j);
    assert Packed(cs, i, j) == Truth(cs[i].b) + 2 * rest;
    if k > i {
      assert (Truth(cs[i].b) + 2 * rest) / 2 == rest;
      PackedHasBit(cs, i + 1, j, k);
    }
  }

  lemma {:induction false} HighBitClear(x: nat, k: nat)
    requires x < Pow2(k)
    ensures !HasBit(x, k)
  {
    if k > 0 { HighBitClear(x / 2, k - 1); }
  }

  lemma {:induction false} PackedExtend(cs: seq<Chunk>, i: nat, j: nat)
    requires i <= j < |cs| && forall k | i <= k <= j :: cs[k].Flag?
    ensures Packed(cs, i, j + 1) == Packed(cs, i, j) + (if cs[j].b != 0 then Pow2(j - i) else 0)
    decreases j - i
  {
    if i < j {
      PackedExtend(cs, i + 1, j);
      assert Pow2(j - i) == 2 * Pow2(j - i - 1);
    } else {
      assert Packed(cs, j + 1, j + 1) == 0;
    }
  }

  lemma Pow2Octet(k: nat)
    requires k <= 8
    ensures Pow2(k) <= 256
    decreases 8 - k
  {
    if k < 8 { Pow2Octet(k + 1); assert Pow2(k + 1) == 2 * Pow2(k); }
    else { assert Pow2(8) == 4 * Pow2(6) == 16 * Pow2(4) == 64 * Pow2(2); }
  }

  // ----- the wire format of an argument list -----

  /** The end of the run of bits that starts at `i`, at most `room` bits long. */
  function RunEnd(ts: seq<FieldType>, i: nat, room: nat): (j: nat)
    requires i <= |ts|
    ensures i <= j <= |ts| && j <= i + room
    ensures forall k | i <= k < j :: ts[k].Bit?
    ensures j < |ts| && j < i + room ==> !ts[j].Bit?
    decreases room
  {
    if room == 0 || i == |ts| || !ts[i].Bit? then i else RunEnd(ts, i + 1, room - 1)
  }

  function PackedOctet(cs: seq<Chunk>, i: nat, j: nat): (r: byte)
    requires i <= j <= |cs| && j - i <= 8 && forall k | i <= k < j :: cs[k].Flag?
    ensures r == Packed(cs, i, j)
  {
    Pow2Octet(j - i);
    Packed(cs, i, j)
  }

  /** Fields in order; every run of bits cut into octets of at most eight bits, low bit first
      (section 4.2.5.2 of AMQP 0-9-1). */
  ghost function ArgsBytes(ts: seq<FieldType>, cs: seq<Chunk>, i: nat): seq<byte>
    requires Shaped(ts, cs) && i <= |ts|
    decreases |ts| - i
  {
    if i == |ts| then []
    else if ts[i].Bit? then
      var j := RunEnd(ts, i, 8);
      [PackedOctet(cs, i, j)] + ArgsBytes(ts, cs, j)
    else
      cs[i].bytes + ArgsBytes(ts, cs, i + 1)
  }

  /** What is still to come when `bit` flags in front of `i` wait in the bit buffer. */
  ghost function PendingBytes(ts: seq<FieldType>, cs: seq<Chunk>, i: nat, bit: nat): seq<byte>
    requires Shaped(ts, cs) && Pending(ts, i, bit)
  {
    if bit == 0 then ArgsBytes(ts, cs, i)
    else
      var j := RunEnd(ts, i, 8 - bit);
      [PackedOctet(cs, i - bit, j)] + ArgsBytes(ts, cs, j)
  }

  ghost predicate Pending(ts: seq<FieldType>, i: nat, bit: nat) {
    bit < 8 && bit <= i <= |ts| && forall k | i - bit <= k < i :: ts[k].Bit?
  }

  // ----- the emitted encoder -----

  /** One emitted statement of an encoder: reset the bit buffer, merge a flag into it, write it,
      write a whole field. */
  datatype EncOp = ClearBits | MergeBit(field: nat, bit: nat) | PutBits | PutField(field: nat)

  function FlushCode(bit: nat): seq<EncOp> { if bit > 0 then [PutBits] else [] }

  /** What field `i` adds to the program when `bit` bits are pending, and the bits pending after it. */
  function EncStep(ft: FieldType, i: nat, bit: nat): seq<EncOp> {
    if ft.Bit? then
      (if bit == 0 then [ClearBits] else []) + [MergeBit(i, bit)] + (if bit + 1 == 8 then [PutBits] else [])
    else
      FlushCode(bit) + [PutField(i)]
  }

  function NextBit(ft: FieldType, bit: nat): nat { if ft.Bit? && bit + 1 != 8 then bit + 1 else 0 }

  /** The program for the fields from `i` on. */
  function EncCode(ts: seq<FieldType>, i: nat, bit: nat): seq<EncOp>
    requires i <= |ts|
    decreases |ts| - i
  {
    if i == |ts| then FlushCode(bit)
    else EncStep(ts[i], i, bit) + EncCode(ts, i + 1, NextBit(ts[i], bit))
  }

  /** `BitEncoder`: the emitter that counts the bits not yet written. */
  class BitEncoder {
    var code: seq<EncOp>
    var bit: nat

    constructor ()
      ensures code == [] && bit == 0
    {
      code, bit := [], 0;
    }

    method Flush()
      modifies this
      ensures code == old(code) + FlushCode(old(bit)) && bit == 0
    {
      if bit > 0 { code := code + [PutBits]; bit := 0; }
    }

    method Emit(op: EncOp)
      modifies this
      ensures code == old(code) + (FlushCode(old(bit)) + [op]) && bit == 0
    {
      Flush();
      code := code + [op];
    }

    method EncodeBit(field: nat)
      requires bit < 8
      modifies this
      ensures code == old(code) + EncStep(Bit, field, old(bit)) && bit == NextBit(Bit, old(bit))
    {
      if bit == 0 { code := code + [ClearBits]; }
      code := code + [MergeBit(field, bit)];
      bit := bit + 1;
      if bit == 8 { Flush(); }
    }
  }

  /** `genEncodeMethodFields`. */
  method GenerateEncoder(ts: seq<FieldType>) returns (code: seq<EncOp>)
    ensures code == EncCode(ts, 0, 0)
  {
    var emitter := new BitEncoder();
    for i := 0 to |ts|
      invariant emitter.bit < 8 && emitter.code + EncCode(ts, i, emitter.bit) == EncCode(ts, 0, 0)
    {
      ghost var done, bit := emitter.code, emitter.bit;
      if ts[i].Bit? {
        emitter.EncodeBit(i);
      } else {
        emitter.Emit(PutField(i));
      }
      Associative(done, EncStep(ts[i], i, bit), EncCode(ts, i + 1, emitter.bit));
    }
    emitter.Flush();
    code := emitter.code;
  }

  lemma Associative<T>(a: seq<T>, b: seq<T>, c: seq<T>)
    ensures a + (b + c) == a + b + c
  {
  }

  /** An encoder in progress: the bit buffer and what has been written, or an error return. */
  datatype Encoder = Aborted | Writing(bits: nat, out: seq<byte>)

  /** One statement, run on the struct `cs` with a buffer of `cap` octets. */
  function Exec(op: EncOp, cs: seq<Chunk>, cap: nat, m: Encoder): Encoder {
    if m.Aborted? then Aborted
    else
      match op
      case ClearBits => m.(bits := 0)
      case MergeBit(f, k) =>
        if f < |cs| && cs[f].Flag? then
          if cs[f].b != 0 then m.(bits := WithBit(m.bits, k)) else m
        else Aborted
      case PutBits => Put(m, [m.bits % 256], cap)
      case PutField(f) =>
        if f < |cs| && cs[f].Whole? && cs[f].accepted then Put(m, cs[f].bytes, cap) else Aborted
  }

  function Put(m: Encoder, s: seq<byte>, cap: nat): Encoder {
    if m.Writing? && |m.out| + |s| <= cap then m.(out := m.out + s) else Aborted
  }

  function RunEncoder(code: seq<EncOp>, cs: seq<Chunk>, cap: nat, m: Encoder): Encoder {
    if code == [] then m else RunEncoder(code[1..], cs, cap, Exec(code[0], cs, cap, m))
  }

  ghost predicate AllAccepted(ts: seq<FieldType>, cs: seq<Chunk>, i: nat)
    requires Shaped(ts, cs)
  {
    forall k | i <= k < |cs| && cs[k].Whole? :: cs[k].accepted
  }

  lemma {:induction false} RunAppend(a: seq<EncOp>, b: seq<EncOp>, cs: seq<Chunk>, cap: nat, m: Encoder)
    ensures RunEncoder(a + b, cs, cap, m) == RunEncoder(b, cs, cap, RunEncoder(a, cs, cap, m))
  {
    if a == [] {
      assert a + b == b;
    } else {
      assert (a + b)[0] == a[0] && (a + b)[1..] == a[1..] + b;
      RunAppend(a[1..], b, cs, cap, Exec(a[0], cs, cap, m));
    }
  }

  lemma RunOne(op: EncOp, cs: seq<Chunk>, cap: nat, m: Encoder)
    ensures RunEncoder([op], cs, cap, m) == Exec(op, cs, cap, m)
  {
    assert [op][1..] == [];
  }

  lemma {:induction false} RunAborted(code: seq<EncOp>, cs: seq<Chunk>, cap: nat)
    ensures RunEncoder(code, cs, cap, Aborted) == Aborted
  {
    if code != [] { RunAborted(code[1..], cs, cap); }
  }

  /** The octet a flush writes. */
  function Flushed(bits: nat, bit: nat): seq<byte> { if bit > 0 then [bits % 256] else [] }

  lemma RunFlush(bit: nat, cs: seq<Chunk>, cap: nat, m: Encoder)
    requires m.Writing? && |m.out| <= cap
    ensures RunEncoder(FlushCode(bit), cs, cap, m) == Put(m, Flushed(m.bits, bit), cap)
  {
    if bit > 0 { RunOne(PutBits, cs, cap, m); } else { assert m.out + [] == m.out; }
  }

  /** The statements of a bit field leave the flags packed so far in the bit buffer, and write it
      once it holds eight. */
  lemma RunBit(ts: seq<FieldType>, cs: seq<Chunk>, i: nat, bit: nat, cap: nat, m: Encoder)
    requires Shaped(ts, cs) && i < |ts| && ts[i].Bit? && Pending(ts, i, bit) && m.Writing?
    requires bit > 0 ==> m.bits == Packed(cs, i - bit, i)
    ensures var m' := m.(bits := Packed(cs, i - bit, i + 1));
            RunEncoder(EncStep(Bit, i, bit), cs, cap, m)
            == if bit < 7 then m' else Put(m', [m'.bits % 256], cap)
  {
    var clear, merge := if bit == 0 then [ClearBits] else [], [MergeBit(i, bit)];
    var put := if bit == 7 then [PutBits] else [];
    var m0 := if bit == 0 then m.(bits := 0) else m;
    var m1 := m.(bits := Packed(cs, i - bit, i + 1));
    RunAppend(clear + merge, put, cs, cap, m);
    RunAppend(clear, merge, cs, cap, m);
    if bit == 0 { RunOne(ClearBits, cs, cap, m); }
    RunOne(MergeBit(i, bit), cs, cap, m0);
    MergedBits(ts, cs, i, bit, m.bits);
    if bit == 7 { RunOne(PutBits, cs, cap, m1); }
  }

  /** The statements of any other field: a flush if bits are pending, then the field. */
  lemma RunField(ft: FieldType, cs: seq<Chunk>, i: nat, bit: nat, cap: nat, m: Encoder)
    requires i < |cs| && cs[i].Whole? && !ft.Bit? && m.Writing? && |m.out| <= cap
    ensures RunEncoder(EncStep(ft, i, bit), cs, cap, m)
         == if cs[i].accepted then Put(Put(m, Flushed(m.bits, bit), cap), cs[i].bytes, cap)
            else Aborted
  {
    RunAppend(FlushCode(bit), [PutField(i)], cs, cap, m);
    RunFlush(bit, cs, cap, m);
    RunOne(PutField(i), cs, cap, Put(m, Flushed(m.bits, bit), cap));
  }

  // How the octets still to come change as a field is emitted.

  /** The octet of the bits pending in front of `i`. */
  ghost function PendingOctet(ts: seq<FieldType>, cs: seq<Chunk>, i: nat, bit: nat): seq<byte>
    requires Shaped(ts, cs) && Pending(ts, i, bit)
  {
    if bit == 0 then [] else [PackedOctet(cs, i - bit, i)]
  }

  lemma FlushedPending(ts: seq<FieldType>, cs: seq<Chunk>, i: nat, bit: nat, bits: nat)
    requires Shaped(ts, cs) && Pending(ts, i, bit) && (bit > 0 ==> bits == Packed(cs, i - bit, i))
    ensures Flushed(bits, bit) == PendingOctet(ts, cs, i, bit)
  {
    if bit > 0 { assert bits == PackedOctet(cs, i - bit, i); }
  }

  lemma PendingEnd(ts: seq<FieldType>, cs: seq<Chunk>, bit: nat)
    requires Shaped(ts, cs) && Pending(ts, |ts|, bit)
    ensures PendingBytes(ts, cs, |ts|, bit) == PendingOctet(ts, cs, |ts|, bit)
  {
  }

  lemma PendingBit(ts: seq<FieldType>, cs: seq<Chunk>, i: nat, bit: nat)
    requires Shaped(ts, cs) && i < |ts| && ts[i].Bit? && Pending(ts, i, bit)
    ensures bit < 7 ==> Pending(ts, i + 1, bit + 1)
                        && PendingBytes(ts, cs, i, bit) == PendingBytes(ts, cs, i + 1, bit + 1)
    ensures bit == 7 ==> PendingBytes(ts, cs, i, bit)
                         == [PackedOctet(cs, i - 7, i + 1)] + PendingBytes(ts, cs, i + 1, 0)
  {
    assert RunEnd(ts, i, 8 - bit) == RunEnd(ts, i + 1, 7 - bit);
  }

  lemma PendingField(ts: seq<FieldType>, cs: seq<Chunk>, i: nat, bit: nat)
    requires Shaped(ts, cs) && i < |ts| && !ts[i].Bit? && Pending(ts, i, bit)
    ensures PendingBytes(ts, cs, i, bit)
         == PendingOctet(ts, cs, i, bit) + (cs[i].bytes + ArgsBytes(ts, cs, i + 1))
  {
    var rest := cs[i].bytes + ArgsBytes(ts, cs, i + 1);
    assert ArgsBytes(ts, cs, i) == rest;
    if bit == 0 { assert [] + rest == rest; } else { assert RunEnd(ts, i, 8 - bit) == i; }
  }

  /** The end of an encoder that is to write `rest` after what it has written. */
  ghost predicate Ends(r: Encoder, ok: bool, m: Encoder, rest: seq<byte>, cap: nat)
    requires m.Writing?
  {
    if ok && |m.out| + |rest| <= cap then r.Writing? && r.out == m.out + rest else r.Aborted?
  }

  lemma EndsAfterPut(r: Encoder, ok: bool, m: Encoder, s: seq<byte>, rest: seq<byte>, cap: nat)
    requires m.Writing?
    requires var p := Put(m, s, cap); if p.Writing? then Ends(r, ok, p, rest, cap) else r.Aborted?
    ensures Ends(r, ok, m, s + rest, cap)
  {
    assert m.out + s + rest == m.out + (s + rest);
  }

  /** The bit buffer after merging flag `i`. */
  lemma MergedBits(ts: seq<FieldType>, cs: seq<Chunk>, i: nat, bit: nat, bits: nat)
    requires Shaped(ts, cs) && i < |ts| && ts[i].Bit? && Pending(ts, i, bit)
    requires bit > 0 ==> bits == Packed(cs, i - bit, i)
    ensures var b := if bit == 0 then 0 else bits;
            (if cs[i].b != 0 then WithBit(b, bit) else b) == Packed(cs, i - bit, i + 1)
  {
    PackedExtend(cs, i - bit, i);
    HighBitClear(if bit == 0 then 0 else bits, bit);
  }

  lemma FieldEnds(ts: seq<FieldType>, cs: seq<Chunk>, i: nat, bit: nat, cap: nat, m: Encoder, r: Encoder)
    requires Shaped(ts, cs) && i < |ts| && !ts[i].Bit? && Pending(ts, i, bit) && m.Writing?
    requires bit > 0 ==> m.bits == Packed(cs, i - bit, i)
    requires var m' := Put(Put(m, Flushed(m.bits, bit), cap), cs[i].bytes, cap);
             if cs[i].accepted && m'.Writing? then Ends(r, AllAccepted(ts, cs, i + 1), m', ArgsBytes(ts, cs, i + 1), cap)
             else r.Aborted?
    ensures Ends(r, AllAccepted(ts, cs, i), m, PendingBytes(ts, cs, i, bit), cap)
  {
    PendingField(ts, cs, i, bit);
    FlushedPending(ts, cs, i, bit, m.bits);
    var f, args := Flushed(m.bits, bit), ArgsBytes(ts, cs, i + 1);
    if cs[i].accepted {
      assert AllAccepted(ts, cs, i) == AllAccepted(ts, cs, i + 1);
      var m1 := Put(m, f, cap);
      if m1.Writing? { EndsAfterPut(r, AllAccepted(ts, cs, i), m1, cs[i].bytes, args, cap); }
      EndsAfterPut(r, AllAccepted(ts, cs, i), m, f, cs[i].bytes + args, cap);
    }
  }

  /** The emitted encoder writes exactly the wire format, and fails exactly when a field is refused
      or the buffer is too small. */
  lemma {:induction false} EncoderCorrect(ts: seq<FieldType>, cs: seq<Chunk>, i: nat, bit: nat, cap: nat, m: Encoder)
    requires Shaped(ts, cs) && Pending(ts, i, bit) && m.Writing? && |m.out| <= cap
    requires bit > 0 ==> m.bits == Packed(cs, i - bit, i)
    ensures Ends(RunEncoder(EncCode(ts, i, bit), cs, cap, m),
                 AllAccepted(ts, cs, i), m, PendingBytes(ts, cs, i, bit), cap)
    decreases |ts| - i, 2
  {
    if i == |ts| {
      PendingEnd(ts, cs, bit);
      FlushedPending(ts, cs, i, bit, m.bits);
      RunFlush(bit, cs, cap, m);
    } else {
      RunAppend(EncStep(ts[i], i, bit), EncCode(ts, i + 1, NextBit(ts[i], bit)), cs, cap, m);
      if ts[i].Bit? { EncoderAtBit(ts, cs, i, bit, cap, m); } else { EncoderAtField(ts, cs, i, bit, cap, m); }
    }
  }

  lemma {:induction false} EncoderAtBit(ts: seq<FieldType>, cs: seq<Chunk>, i: nat, bit: nat, cap: nat, m: Encoder)
    requires Shaped(ts, cs) && Pending(ts, i, bit) && m.Writing? && |m.out| <= cap && i < |ts| && ts[i].Bit?
    requires bit > 0 ==> m.bits == Packed(cs, i - bit, i)
    ensures Ends(RunEncoder(EncCode(ts, i + 1, NextBit(Bit, bit)), cs, cap, RunEncoder(EncStep(Bit, i, bit), cs, cap, m)),
                 AllAccepted(ts, cs, i), m, PendingBytes(ts, cs, i, bit), cap)
    decreases |ts| - i, 1
  {
    var p := m.(bits := Packed(cs, i - bit, i + 1));
    RunBit(ts, cs, i, bit, cap, m);
    assert AllAccepted(ts, cs, i) == AllAccepted(ts, cs, i + 1);
    if bit < 7 {
      PendingBit(ts, cs, i, bit);
      EncoderCorrect(ts, cs, i + 1, bit + 1, cap, p);
    } else {
      EncoderAtOctet(ts, cs, i, cap, p);
    }
  }

  lemma {:induction false} EncoderAtOctet(ts: seq<FieldType>, cs: seq<Chunk>, i: nat, cap: nat, m: Encoder)
    requires Shaped(ts, cs) && Pending(ts, i, 7) && m.Writing? && |m.out| <= cap && i < |ts| && ts[i].Bit?
    requires m.bits == Packed(cs, i - 7, i + 1)
    ensures Ends(RunEncoder(EncCode(ts, i + 1, 0), cs, cap, Put(m, [m.bits % 256], cap)),
                 AllAccepted(ts, cs, i + 1), m, PendingBytes(ts, cs, i, 7), cap)
    decreases |ts| - i, 0
  {
    var octet := PackedOctet(cs, i - 7, i + 1);
    assert m.bits % 256 == octet;
    var m' := Put(m, [octet], cap);
    if m'.Writing? { EncoderCorrect(ts, cs, i + 1, 0, cap, m'); } else { RunAborted(EncCode(ts, i + 1, 0), cs, cap); }
    EndsAfterPut(RunEncoder(EncCode(ts, i + 1, 0), cs, cap, m'),
                 AllAccepted(ts, cs, i + 1), m, [octet], ArgsBytes(ts, cs, i + 1), cap);
    PendingBit(ts, cs, i, 7);
  }

  lemma {:induction false} EncoderAtField(ts: seq<FieldType>, cs: seq<Chunk>, i: nat, bit: nat, cap: nat, m: Encoder)
    requires Shaped(ts, cs) && Pending(ts, i, bit) && m.Writing? && |m.out| <= cap && i < |ts| && !ts[i].Bit?
    requires bit > 0 ==> m.bits == Packed(cs, i - bit, i)
    ensures Ends(RunEncoder(EncCode(ts, i + 1, 0), cs, cap, RunEncoder(EncStep(ts[i], i, bit), cs, cap, m)),
                 AllAccepted(ts, cs, i), m, PendingBytes(ts, cs, i, bit), cap)
    decreases |ts| - i, 1
  {
    var code := EncCode(ts, i + 1, 0);
    RunField(ts[i], cs, i, bit, cap, m);
    var m' := RunEncoder(EncStep(ts[i], i, bit), cs, cap, m);
    if m'.Writing? { EncoderCorrect(ts, cs, i + 1, 0, cap, m'); } else { RunAborted(code, cs, cap); }
    FieldEnds(ts, cs, i, bit, cap, m, RunEncoder(code, cs, cap, m'));
  }

  // ----- the emitted decoder -----

  /** One emitted statement of a decoder: load the bit buffer, test a bit of it, read a whole field. */
  datatype DecOp = LoadBits | TestBit(field: nat, bit: nat) | GetField(field: nat)

  function DecStep(ft: FieldType, i: nat, bit: nat): seq<DecOp> {
    if ft.Bit? then (if bit == 0 then [LoadBits] else []) + [TestBit(i, bit)] else [GetField(i)]
  }

  function DecCode(ts: seq<FieldType>, i: nat, bit: nat): seq<DecOp>
    requires i <= |ts|
    decreases |ts| - i
  {
    if i == |ts| then [] else DecStep(ts[i], i, bit) + DecCode(ts, i + 1, NextBit(ts[i], bit))
  }

  /** `BitDecoder`: any statement that is not about a bit ends the run. */
  class BitDecoder {
    var code: seq<DecOp>
    var bit: nat

    constructor ()
      ensures code == [] && bit == 0
    {
      code, bit := [], 0;
    }

    method Emit(op: DecOp)
      modifies this
      ensures code == old(code) + [op] && bit == 0
    {
      bit := 0;
      code := code + [op];
    }

    method DecodeBit(field: nat)
      requires bit < 8
      modifies this
      ensures code == old(code) + DecStep(Bit, field, old(bit)) && bit == NextBit(Bit, old(bit))
    {
      if bit == 0 { code := code + [LoadBits]; }
      code := code + [TestBit(field, bit)];
      bit := bit + 1;
      if bit == 8 { bit := 0; }
    }
  }

  /** `genDecodeMethodFields`. */
  method GenerateDecoder(ts: seq<FieldType>) returns (code: seq<DecOp>)
    ensures code == DecCode(ts, 0, 0)
  {
    var emitter := new BitDecoder();
    for i := 0 to |ts|
      invariant emitter.bit < 8 && emitter.code + DecCode(ts, i, emitter.bit) == DecCode(ts, 0, 0)
    {
      ghost var done, bit := emitter.code, emitter.bit;
      if ts[i].Bit? {
        emitter.DecodeBit(i);
      } else {
        emitter.Emit(GetField(i));
      }
      Associative(done, DecStep(ts[i], i, bit), DecCode(ts, i + 1, emitter.bit));
    }
    code := emitter.code;
  }

  /** What a field of the struct holds: a flag, or the value its own decoder gave. */
  datatype Member<+T> = IsFlag(set': bool) | IsField(value: T)

  /** A decoder in progress: the bit buffer, the offset and the members assigned so far. */
  datatype Decoder<T> = Broken | Reading(bits: byte, off: nat, members: map<nat, Member<T>>)

  /** One statement, run over `buf`; `read` is what the field decoders do. */
  function ExecDec<T>(op: DecOp, buf: seq<byte>, read: (nat, nat) -> Read<T>, m: Decoder<T>): Decoder<T> {
    if m.Broken? then Broken
    else
      match op
      case LoadBits => if m.off < |buf| then m.(bits := buf[m.off], off := m.off + 1) else Broken
      case TestBit(f, k) => m.(members := m.members[f := IsFlag(HasBit(m.bits, k))])
      case GetField(f) =>
        match read(f, m.off)
        case Bad => Broken
        case Got(v, next) => m.(off := next, members := m.members[f := IsField(v)])
  }

  function RunDecoder<T>(code: seq<DecOp>, buf: seq<byte>, read: (nat, nat) -> Read<T>, m: Decoder<T>): Decoder<T> {
    if code == [] then m else RunDecoder(code[1..], buf, read, ExecDec(code[0], buf, read, m))
  }

  lemma {:induction false} RunDecoderAppend<T>(a: seq<DecOp>, b: seq<DecOp>, buf: seq<byte>,
                                               read: (nat, nat) -> Read<T>, m: Decoder<T>)
    ensures RunDecoder(a + b, buf, read, m) == RunDecoder(b, buf, read, RunDecoder(a, buf, read, m))
  {
    if a == [] {
      assert a + b == b;
    } else {
      assert (a + b)[0] == a[0] && (a + b)[1..] == a[1..] + b;
      RunDecoderAppend(a[1..], b, buf, read, ExecDec(a[0], buf, read, m));
    }
  }

  lemma RunDecoderOne<T>(op: DecOp, buf: seq<byte>, read: (nat, nat) -> Read<T>, m: Decoder<T>)
    ensures RunDecoder([op], buf, read, m) == ExecDec(op, buf, read, m)
  {
    assert [op][1..] == [];
  }

  /** The field decoders undo the field encoders: where field `i`'s octets stand, `read` gives
      `vs[i]` and stops behind them. */
  ghost predicate Reads<T(!new)>(read: (nat, nat) -> Read<T>, buf: seq<byte>, cs: seq<Chunk>, vs: seq<T>) {
    |vs| == |cs| &&
    forall i, off: nat | 0 <= i < |cs| && cs[i].Whole? && At(buf, off, cs[i].bytes) ::
      read(i, off) == Got(vs[i], off + |cs[i].bytes|)
  }

  /** The struct the decoder should fill from member `i` on. */
  ghost function Members<T>(cs: seq<Chunk>, vs: seq<T>, i: nat): map<nat, Member<T>>
    requires |vs| == |cs|
  {
    map k: nat | i <= k < |cs| :: if cs[k].Flag? then IsFlag(cs[k].b != 0) else IsField(vs[k])
  }

  /** The octets not yet loaded when `bit` flags in front of `i` came from the octet in the bit buffer. */
  ghost function Unread(ts: seq<FieldType>, cs: seq<Chunk>, i: nat, bit: nat): seq<byte>
    requires Shaped(ts, cs) && Pending(ts, i, bit)
  {
    if bit == 0 then ArgsBytes(ts, cs, i) else ArgsBytes(ts, cs, RunEnd(ts, i, 8 - bit))
  }

  ghost predicate Positioned<T>(ts: seq<FieldType>, cs: seq<Chunk>, i: nat, bit: nat, buf: seq<byte>, m: Decoder<T>)
    requires Shaped(ts, cs) && Pending(ts, i, bit)
  {
    match m
    case Broken => false
    case Reading(bits, off, _) =>
      && At(buf, off, Unread(ts, cs, i, bit))
      && (bit > 0 ==> bits == PackedOctet(cs, i - bit, RunEnd(ts, i, 8 - bit)))
  }

  lemma RunStart(ts: seq<FieldType>, cs: seq<Chunk>, i: nat, buf: seq<byte>, off: nat)
    requires Shaped(ts, cs) && i < |ts| && ts[i].Bit? && At(buf, off, ArgsBytes(ts, cs, i))
    ensures var j := RunEnd(ts, i, 8);
            && off < |buf| && buf[off] == PackedOctet(cs, i, j)
            && At(buf, off + 1, ArgsBytes(ts, cs, j))
            && |ArgsBytes(ts, cs, i)| == 1 + |ArgsBytes(ts, cs, j)|
  {
    var j := RunEnd(ts, i, 8);
    var octet := PackedOctet(cs, i, j);
    AtSplit(buf, off, [octet], ArgsBytes(ts, cs, j));
    assert [octet][0] == octet;
  }

  /** A bit statement sets its flag and leaves the decoder positioned at the next field. */
  lemma DecodeBitStep<T>(ts: seq<FieldType>, cs: seq<Chunk>, i: nat, bit: nat, buf: seq<byte>,
                         read: (nat, nat) -> Read<T>, m: Decoder<T>) returns (m': Decoder<T>)
    requires Shaped(ts, cs) && Pending(ts, i, bit) && i < |ts| && ts[i].Bit? && Positioned(ts, cs, i, bit, buf, m)
    ensures m' == RunDecoder(DecStep(Bit, i, bit), buf, read, m) && m'.Reading?
    ensures m'.members == m.members[i := IsFlag(cs[i].b != 0)]
    ensures Pending(ts, i + 1, NextBit(Bit, bit)) && Positioned(ts, cs, i + 1, NextBit(Bit, bit), buf, m')
    ensures m'.off + |Unread(ts, cs, i + 1, NextBit(Bit, bit))| == m.off + |Unread(ts, cs, i, bit)|
  {
    RunBitStep(i, bit, buf, read, m);
    var m1 := LoadStep(ts, cs, i, bit, buf, read, m);
    m' := ExecDec(TestBit(i, bit), buf, read, m1);
    TestStep(ts, cs, i, bit, buf, m1, m');
  }

  /** The octet of the run is in the bit buffer: it has just been loaded, or it was there before. */
  ghost predicate InRun<T>(ts: seq<FieldType>, cs: seq<Chunk>, i: nat, bit: nat, buf: seq<byte>, m: Decoder<T>)
    requires Shaped(ts, cs) && Pending(ts, i, bit)
  {
    match m
    case Broken => false
    case Reading(bits, off, _) =>
      && bits == PackedOctet(cs, i - bit, RunEnd(ts, i, 8 - bit))
      && At(buf, off, ArgsBytes(ts, cs, RunEnd(ts, i, 8 - bit)))
  }

  lemma LoadStep<T>(ts: seq<FieldType>, cs: seq<Chunk>, i: nat, bit: nat, buf: seq<byte>,
                    read: (nat, nat) -> Read<T>, m: Decoder<T>) returns (m1: Decoder<T>)
    requires Shaped(ts, cs) && Pending(ts, i, bit) && i < |ts| && ts[i].Bit? && Positioned(ts, cs, i, bit, buf, m)
    ensures m1 == if bit == 0 then ExecDec(LoadBits, buf, read, m) else m
    ensures InRun(ts, cs, i, bit, buf, m1) && m1.members == m.members
    ensures m1.off + |ArgsBytes(ts, cs, RunEnd(ts, i, 8 - bit))| == m.off + |Unread(ts, cs, i, bit)|
  {
    if bit == 0 {
      m1 := LoadFirst(ts, cs, i, buf, read, m);
    } else {
      m1 := m;
    }
  }

  lemma LoadFirst<T>(ts: seq<FieldType>, cs: seq<Chunk>, i: nat, buf: seq<byte>, read: (nat, nat) -> Read<T>, m: Decoder<T>)
    returns (m1: Decoder<T>)
    requires Shaped(ts, cs) && i < |ts| && ts[i].Bit? && m.Reading? && At(buf, m.off, ArgsBytes(ts, cs, i))
    ensures m1 == ExecDec(LoadBits, buf, read, m)
    ensures InRun(ts, cs, i, 0, buf, m1) && m1.members == m.members
    ensures m1.off + |ArgsBytes(ts, cs, RunEnd(ts, i, 8))| == m.off + |ArgsBytes(ts, cs, i)|
  {
    RunStart(ts, cs, i, buf, m.off);
    m1 := m.(bits := buf[m.off], off := m.off + 1);
  }

  lemma TestStep<T>(ts: seq<FieldType>, cs: seq<Chunk>, i: nat, bit: nat, buf: seq<byte>, m: Decoder<T>, m': Decoder<T>)
    requires Shaped(ts, cs) && Pending(ts, i, bit) && i < |ts| && ts[i].Bit? && InRun(ts, cs, i, bit, buf, m)
    requires m' == m.(members := m.members[i := IsFlag(HasBit(m.bits, bit))])
    ensures m'.members == m.members[i := IsFlag(cs[i].b != 0)]
    ensures Pending(ts, i + 1, NextBit(Bit, bit)) && Positioned(ts, cs, i + 1, NextBit(Bit, bit), buf, m')
    ensures |Unread(ts, cs, i + 1, NextBit(Bit, bit))| == |ArgsBytes(ts, cs, RunEnd(ts, i, 8 - bit))|
  {
    Loaded(ts, cs, i, bit, m.bits);
  }

  lemma RunBitStep<T>(i: nat, bit: nat, buf: seq<byte>, read: (nat, nat) -> Read<T>, m: Decoder<T>)
    ensures RunDecoder(DecStep(Bit, i, bit), buf, read, m)
         == ExecDec(TestBit(i, bit), buf, read, if bit == 0 then ExecDec(LoadBits, buf, read, m) else m)
  {
    if bit == 0 {
      RunDecoderAppend([LoadBits], [TestBit(i, bit)], buf, read, m);
      RunDecoderOne(LoadBits, buf, read, m);
      RunDecoderOne(TestBit(i, bit), buf, read, ExecDec(LoadBits, buf, read, m));
    } else {
      assert [] + [TestBit(i, bit)] == [TestBit(i, bit)];
      RunDecoderOne(TestBit(i, bit), buf, read, m);
    }
  }

  /** With the octet of its run in the bit buffer, flag `i` is bit `bit`, and the run goes on. */
  lemma Loaded(ts: seq<FieldType>, cs: seq<Chunk>, i: nat, bit: nat, bits: byte)
    requires Shaped(ts, cs) && Pending(ts, i, bit) && i < |ts| && ts[i].Bit?
    requires bits == PackedOctet(cs, i - bit, RunEnd(ts, i, 8 - bit))
    ensures HasBit(bits, bit) <==> cs[i].b != 0
    ensures Pending(ts, i + 1, NextBit(Bit, bit))
    ensures Unread(ts, cs, i + 1, NextBit(Bit, bit)) == ArgsBytes(ts, cs, RunEnd(ts, i, 8 - bit))
    ensures bit < 7 ==> RunEnd(ts, i + 1, 7 - bit) == RunEnd(ts, i, 8 - bit)
  {
    assert RunEnd(ts, i, 8 - bit) == RunEnd(ts, i + 1, 7 - bit);
    PackedHasBit(cs, i - bit, RunEnd(ts, i, 8 - bit), i);
  }

  /** A field statement reads its field and leaves the decoder positioned at the next one. */
  lemma DecodeFieldStep<T(!new)>(ts: seq<FieldType>, cs: seq<Chunk>, vs: seq<T>, i: nat, bit: nat, buf: seq<byte>,
                           read: (nat, nat) -> Read<T>, m: Decoder<T>) returns (m': Decoder<T>)
    requires Shaped(ts, cs) && Pending(ts, i, bit) && i < |ts| && !ts[i].Bit? && Positioned(ts, cs, i, bit, buf, m)
    requires Reads(read, buf, cs, vs)
    ensures m' == RunDecoder(DecStep(ts[i], i, bit), buf, read, m) && m'.Reading?
    ensures m'.members == m.members[i := IsField(vs[i])]
    ensures Pending(ts, i + 1, 0) && Positioned(ts, cs, i + 1, 0, buf, m')
    ensures m'.off + |Unread(ts, cs, i + 1, 0)| == m.off + |Unread(ts, cs, i, bit)|
  {
    FieldStart(ts, cs, i, bit, buf, m);
    RunDecoderOne(GetField(i), buf, read, m);
    var next := m.off + |cs[i].bytes|;
    assert read(i, m.off) == Got(vs[i], next);
    m' := m.(off := next, members := m.members[i := IsField(vs[i])]);
  }

  lemma FieldStart<T>(ts: seq<FieldType>, cs: seq<Chunk>, i: nat, bit: nat, buf: seq<byte>, m: Decoder<T>)
    requires Shaped(ts, cs) && Pending(ts, i, bit) && i < |ts| && !ts[i].Bit? && Positioned(ts, cs, i, bit, buf, m)
    ensures At(buf, m.off, cs[i].bytes) && At(buf, m.off + |cs[i].bytes|, ArgsBytes(ts, cs, i + 1))
    ensures |Unread(ts, cs, i, bit)| == |cs[i].bytes| + |ArgsBytes(ts, cs, i + 1)|
  {
    assert bit > 0 ==> RunEnd(ts, i, 8 - bit) == i;
    AtSplit(buf, m.off, cs[i].bytes, ArgsBytes(ts, cs, i + 1));
  }

  lemma MembersFrom<T>(cs: seq<Chunk>, vs: seq<T>, i: nat, before: map<nat, Member<T>>)
    requires i < |cs| == |vs|
    ensures before[i := if cs[i].Flag? then IsFlag(cs[i].b != 0) else IsField(vs[i])] + Members(cs, vs, i + 1)
         == before + Members(cs, vs, i)
  {
  }

  lemma RunDecCode<T>(ts: seq<FieldType>, i: nat, bit: nat, buf: seq<byte>, read: (nat, nat) -> Read<T>, m: Decoder<T>)
    requires i < |ts|
    ensures RunDecoder(DecCode(ts, i, bit), buf, read, m)
         == RunDecoder(DecCode(ts, i + 1, NextBit(ts[i], bit)), buf, read, RunDecoder(DecStep(ts[i], i, bit), buf, read, m))
  {
    RunDecoderAppend(DecStep(ts[i], i, bit), DecCode(ts, i + 1, NextBit(ts[i], bit)), buf, read, m);
  }

  /** The emitted decoder, run over the octets of the wire format, assigns every member its value
      and stops right behind them. */
  lemma {:induction false} DecoderCorrect<T(!new)>(ts: seq<FieldType>, cs: seq<Chunk>, vs: seq<T>, i: nat, bit: nat,
                                             buf: seq<byte>, read: (nat, nat) -> Read<T>, m: Decoder<T>, end: nat)
    requires Shaped(ts, cs) && Pending(ts, i, bit) && Positioned(ts, cs, i, bit, buf, m)
    requires Reads(read, buf, cs, vs) && end == m.off + |Unread(ts, cs, i, bit)|
    ensures var r := RunDecoder(DecCode(ts, i, bit), buf, read, m);
            r.Reading? && r.off == end && r.members == m.members + Members(cs, vs, i)
    decreases |ts| - i
  {
    if i == |ts| {
      assert Members(cs, vs, i) == map[];
      assert m.members + map[] == m.members;
    } else {
      var bit' := NextBit(ts[i], bit);
      var m' := DecodeStep(ts, cs, vs, i, bit, buf, read, m);
      RunDecCode(ts, i, bit, buf, read, m);
      DecoderCorrect(ts, cs, vs, i + 1, bit', buf, read, m', end);
      MembersFrom(cs, vs, i, m.members);
    }
  }

  lemma DecodeStep<T(!new)>(ts: seq<FieldType>, cs: seq<Chunk>, vs: seq<T>, i: nat, bit: nat, buf: seq<byte>,
                            read: (nat, nat) -> Read<T>, m: Decoder<T>) returns (m': Decoder<T>)
    requires Shaped(ts, cs) && Pending(ts, i, bit) && i < |ts| && Positioned(ts, cs, i, bit, buf, m)
    requires Reads(read, buf, cs, vs)
    ensures m' == RunDecoder(DecStep(ts[i], i, bit), buf, read, m) && m'.Reading?
    ensures m'.members == m.members[i := if cs[i].Flag? then IsFlag(cs[i].b != 0) else IsField(vs[i])]
    ensures Pending(ts, i + 1, NextBit(ts[i], bit)) && Positioned(ts, cs, i + 1, NextBit(ts[i], bit), buf, m')
    ensures m'.off + |Unread(ts, cs, i + 1, NextBit(ts[i], bit))| == m.off + |Unread(ts, cs, i, bit)|
  {
    if ts[i].Bit? {
      m' := DecodeBitStep(ts, cs, i, bit, buf, read, m);
    } else {
      m' := DecodeFieldStep(ts, cs, vs, i, bit, buf, read, m);
    }
  }
}
