/** The constant-time comparison of two strings through their UTF-8 bytes (section 3 of RFC 3629). */
module ConstantTime {

  /** A Unicode scalar value. */
  type Scalar = c: bv32 | c < 0xD800 || (0xE000 <= c < 0x110000)

  type Text = seq<Scalar>

  /** The low six bits of `c` shifted right, in a continuation byte. */
  function Cont(c: bv32, shift: nat): bv8
    requires shift <= 12
  {
    (0x80 | ((c >> shift) & 0x3F)) as bv8
  }

  function Lead2(c: bv32): bv8 requires c < 0x800 { (0xC0 | (c >> 6)) as bv8 }
  function Lead3(c: bv32): bv8 requires c < 0x10000 { (0xE0 | (c >> 12)) as bv8 }
  function Lead4(c: bv32): bv8 requires c < 0x110000 { (0xF0 | (c >> 18)) as bv8 }

  /** How many bytes a character takes. */
  function Width(c: Scalar): (n: nat)
    ensures 1 <= n <= 4
  {
    if c < 0x80 then 1 else if c < 0x800 then 2 else if c < 0x10000 then 3 else 4
  }

  function Encode(c: Scalar): (bytes: seq<bv8>)
    ensures |bytes| == Width(c)
  {
    if c < 0x80 then [c as bv8]
    else if c < 0x800 then [Lead2(c), Cont(c, 0)]
    else if c < 0x10000 then [Lead3(c), Cont(c, 6), Cont(c, 0)]
    else [Lead4(c), Cont(c, 12), Cont(c, 6), Cont(c, 0)]
  }

  function EncodeAll(s: Text): seq<bv8> {
    if s == [] then [] else Encode(s[0]) + EncodeAll(s[1..])
  }

  // ---------------------------------------------------------------- UTF-8 is prefix-free

  /** The first byte tells how long the encoding is. */
  function LengthByLead(b: bv8): nat {
    if b < 0x80 then 1 else if b < 0xE0 then 2 else if b < 0xF0 then 3 else 4
  }

  lemma LeadTellsLength(c: Scalar)
    ensures LengthByLead(Encode(c)[0]) == |Encode(c)|
  {
  }

  lemma OneByte(c: bv32, d: bv32)
    requires c < 0x80 && d < 0x80 && c as bv8 == d as bv8
    ensures c == d
  {
  }

  lemma TwoBytes(c: bv32, d: bv32)
    requires c < 0x800 && d < 0x800 && Lead2(c) == Lead2(d) && Cont(c, 0) == Cont(d, 0)
    ensures c == d
  {
  }

  lemma ThreeBytes(c: bv32, d: bv32)
    requires c < 0x10000 && d < 0x10000
    requires Lead3(c) == Lead3(d) && Cont(c, 6) == Cont(d, 6) && Cont(c, 0) == Cont(d, 0)
    ensures c == d
  {
  }

  lemma FourBytes(c: bv32, d: bv32)
    requires c < 0x110000 && d < 0x110000
    requires Lead4(c) == Lead4(d) && Cont(c, 12) == Cont(d, 12) && Cont(c, 6) == Cont(d, 6) && Cont(c, 0) == Cont(d, 0)
    ensures c == d
  {
  }

  lemma EncodeInjective(c: Scalar, d: Scalar)
    requires Width(c) == Width(d) && forall k | 0 <= k < Width(c) :: Encode(c)[k] == Encode(d)[k]
    ensures c == d
  {
    assert Encode(c) == Encode(d);
    match Width(c) {
      case 1 => assert Encode(c)[0] == Encode(d)[0]; OneByte(c, d);
      case 2 => assert Encode(c)[0] == Encode(d)[0] && Encode(c)[1] == Encode(d)[1]; TwoBytes(c, d);
      case 3 => assert Encode(c)[1] == Encode(d)[1] && Encode(c)[2] == Encode(d)[2]; ThreeBytes(c, d);
      case _ => assert Encode(c)[1] == Encode(d)[1] && Encode(c)[2] == Encode(d)[2] && Encode(c)[3] == Encode(d)[3]; FourBytes(c, d);
    }
  }

  /** Two different characters differ in a byte that both encodings have. */
  lemma DifferWithinBoth(c: Scalar, d: Scalar) returns (j: nat)
    requires c != d
    ensures j < |Encode(c)| && j < |Encode(d)| && Encode(c)[j] != Encode(d)[j]
  {
    var x, y := Encode(c), Encode(d);
    LeadTellsLength(c);
    LeadTellsLength(d);
    if x[0] != y[0] {
      j := 0;
    } else {
      assert |x| == |y|;
      assert exists k :: 0 <= k < |x| && x[k] != y[k] by {
        if forall k | 0 <= k < |x| :: x[k] == y[k] { EncodeInjective(c, d); }
      }
      j :| 0 <= j < |x| && x[j] != y[j];
    }
  }

  /** Two different texts of the same number of characters differ in a byte that both have, even
      when one encoding is longer than the other. */
  lemma {:induction false} TextsDifferWithinBoth(a: Text, b: Text) returns (j: nat)
    requires |a| == |b| && a != b
    ensures j < |EncodeAll(a)| && j < |EncodeAll(b)| && EncodeAll(a)[j] != EncodeAll(b)[j]
  {
    if a[0] != b[0] {
      j := DifferWithinBoth(a[0], b[0]);
    } else {
      assert a == [a[0]] + a[1..] && b == [b[0]] + b[1..];
      j := TextsDifferWithinBoth(a[1..], b[1..]);
      j := |Encode(a[0])| + j;
    }
  }

  /** The accumulator stays zero only while all bytes agree. */
  lemma XorOr(r: bv8, x: bv8, y: bv8)
    ensures r | (x ^ y) == 0 <==> r == 0 && x == y
  {
  }

  /** True exactly when the strings are equal. */
  method CtEqual(a: Text, b: Text) returns (equal: bool)
    ensures equal <==> a == b
  {
    if |a| != |b| {
      return false;
    }
    var x, y := EncodeAll(a), EncodeAll(b);
    var n := if |x| < |y| then |x| else |y|;
    var result: bv8 := 0;
    for i := 0 to n
      invariant result == 0 <==> forall k | 0 <= k < i :: x[k] == y[k]
    {
      XorOr(result, x[i], y[i]);
      result := result | (x[i] ^ y[i]);
    }
    equal := result == 0;
    if a != b { var j := TextsDifferWithinBoth(a, b); }
  }
}
