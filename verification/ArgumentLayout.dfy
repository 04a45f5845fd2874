/** The format of method arguments as numbers (sections 4.2.5.1 to 4.2.5.4 of AMQP 0-9-1): the octets
    of every field type and the place of every flag. */
module ArgumentLayout {
  import opened Wire
  import opened Generator
  import opened Arguments
  import FieldTable
  import opened Division

  /** The values of every number type. */
  lemma FieldRanges(f: Field, ft: FieldType)
    ensures ft.Octet? ==> (HasType(f, ft) <==> f.Int? && f.n < 0x100)
    ensures ft.Short? ==> (HasType(f, ft) <==> f.Int? && f.n < 0x10000)
    ensures ft.Long? ==> (HasType(f, ft) <==> f.Int? && f.n < 0x100000000)
    ensures ft.LongLong? ==> (HasType(f, ft) <==> f.Int? && f.n < 0x10000000000000000)
  {
    Pow256Values();
  }

  /** The strings the encoder accepts. */
  lemma FieldAccepted(f: Field, ft: FieldType)
    requires HasType(f, ft)
    ensures ft.ShortStr? ==> (Accepted(f, ft) <==> |f.s| < 0x100)
    ensures ft.LongStr? ==> (Accepted(f, ft) <==> |f.s| < 0x100000000)
    ensures ft in {Octet, Short, Long, LongLong, Bit} ==> Accepted(f, ft)
  {
    Pow256Values();
  }

  /** The octets of every field type. */
  lemma FieldOctets(f: Field, ft: FieldType)
    requires HasType(f, ft)
    ensures ft.Octet? ==> FieldBytes(f, ft) == BigEndian(1, f.n)
    ensures ft.Short? ==> FieldBytes(f, ft) == BigEndian(2, f.n)
    ensures ft.Long? ==> FieldBytes(f, ft) == BigEndian(4, f.n)
    ensures ft.LongLong? ==> FieldBytes(f, ft) == BigEndian(8, f.n)
    ensures ft.ShortStr? ==> FieldBytes(f, ft) == BigEndian(1, |f.s|) + f.s
    ensures ft.LongStr? ==> FieldBytes(f, ft) == BigEndian(4, |f.s|) + f.s
    ensures ft.TableField? ==> FieldBytes(f, ft) == FieldTable.TableBytes(f.t)
  {
  }

  /** The width of every number type. */
  predicate NumberField(ft: FieldType, width: nat) {
    match ft
    case Octet => width == 1
    case Short => width == 2
    case Long => width == 4
    case LongLong => width == 8
    case _ => false
  }

  /** The width of the length in front of every string type. */
  predicate StringField(ft: FieldType, width: nat) {
    match ft
    case ShortStr => width == 1
    case LongStr => width == 4
    case _ => false
  }

  /** What is read for every field type. */
  lemma NumberFieldTaken(buf: seq<byte>, off: nat, ft: FieldType, width: nat)
    requires NumberField(ft, width)
    ensures FieldAt(buf, off, ft) == if off + width <= |buf|
                                     then Got(Int(FromBigEndian(buf[off..off + width])), off + width) else Bad
  {
  }

  lemma StringFieldTaken(buf: seq<byte>, off: nat, ft: FieldType, width: nat)
    requires StringField(ft, width)
    ensures off + width > |buf| ==> FieldAt(buf, off, ft) == Bad
    ensures off + width <= |buf| ==>
              var o, n := off + width, FromBigEndian(buf[off..off + width]);
              FieldAt(buf, off, ft) == if o + n <= |buf| then Got(Str(buf[o..o + n]), o + n) else Bad
  {
  }

  // ----- flags -----

  /** Bit `k` of a number. */
  lemma {:induction false} BitOf(x: nat, k: nat)
    ensures HasBit(x, k) <==> (x / Pow2(k)) % 2 == 1
  {
    if k > 0 {
      BitOf(x / 2, k - 1);
      DivideTwice(x, 2, Pow2(k - 1));
    }
  }

  /** The fields from `i` up to `j` are a run of bits that ends there. */
  ghost predicate BitRun(ts: seq<FieldType>, i: nat, j: nat) {
    i <= j <= |ts| && (forall k | i <= k < j :: ts[k].Bit?) && (j < |ts| ==> !ts[j].Bit?)
  }

  /** `octets` holds the flags from `i` up to `j`: flag `k` in bit `(k - i) % 8` of octet
      `(k - i) / 8`, and no more octets than that takes. */
  ghost predicate FlagsIn(octets: seq<byte>, cs: seq<Chunk>, i: nat, j: nat) {
    && i <= j <= |cs| && |octets| == (j - i + 7) / 8
    && forall k | i <= k < j :: cs[k].Flag? && (HasBit(octets[(k - i) / 8], (k - i) % 8) <==> cs[k].b != 0)
  }

  /** A run of bits, however long, is written as those octets, and the fields behind it follow. */
  lemma {:induction false} RunOctets(ts: seq<FieldType>, cs: seq<Chunk>, i: nat, j: nat) returns (octets: seq<byte>)
    requires Shaped(ts, cs) && BitRun(ts, i, j)
    ensures FlagsIn(octets, cs, i, j)
    ensures ArgsBytes(ts, cs, i) == octets + ArgsBytes(ts, cs, j)
    decreases j - i
  {
    if i == j {
      octets := [];
    } else {
      var m := if i + 8 <= j then i + 8 else j;
      RunEndIs(ts, i, j, m);
      var first := PackedOctet(cs, i, m);
      var rest := RunOctets(ts, cs, m, j);
      FlagsJoin(ts, cs, i, m, j, first, rest);
      octets := [first] + rest;
      Associative([first], rest, ArgsBytes(ts, cs, j));
    }
  }

  lemma RunEndIs(ts: seq<FieldType>, i: nat, j: nat, m: nat)
    requires BitRun(ts, i, j) && m == if i + 8 <= j then i + 8 else j
    ensures RunEnd(ts, i, 8) == m
  {
  }

  lemma FlagsJoin(ts: seq<FieldType>, cs: seq<Chunk>, i: nat, m: nat, j: nat, first: byte, rest: seq<byte>)
    requires Shaped(ts, cs) && BitRun(ts, i, j) && i < j && m == if i + 8 <= j then i + 8 else j
    requires first == PackedOctet(cs, i, m) && FlagsIn(rest, cs, m, j)
    ensures FlagsIn([first] + rest, cs, i, j)
  {
    var octets := [first] + rest;
    forall k | i <= k < j ensures cs[k].Flag? && (HasBit(octets[(k - i) / 8], (k - i) % 8) <==> cs[k].b != 0) {
      assert ts[k].Bit?;
      if k < m {
        PackedHasBit(cs, i, m, k);
      } else {
        assert (k - i) / 8 == 1 + (k - m) / 8 && (k - i) % 8 == (k - m) % 8;
        assert octets[(k - i) / 8] == rest[(k - m) / 8];
      }
    }
  }

  /** Any other field is written as its own octets. */
  lemma FieldPlace(ts: seq<FieldType>, cs: seq<Chunk>, i: nat)
    requires Shaped(ts, cs) && i <= |ts| && (i < |ts| ==> !ts[i].Bit?)
    ensures ArgsBytes(ts, cs, i) == if i == |ts| then [] else cs[i].bytes + ArgsBytes(ts, cs, i + 1)
  {
  }
}
