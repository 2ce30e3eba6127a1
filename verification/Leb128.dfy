// The LEB128 decoders of kern/libdwarf_rw.c (section 7.6 of DWARF Version 3).  Their shifts are shifts of
// an int: ((b & 0x7f) << shift) is 32 bits wide, wraps, and is sign-extended when or'ed into the 64-bit
// result.  From the sixth byte on the shift is by more than 32, which C does not define: whatever such a
// shift gives is a parameter of the model.
module Leb128 {
  type Byte = x: nat | x < 256

  const TWO31: nat := 0x8000_0000
  const TWO64: nat := 0x1_0000_0000_0000_0000

  // ------------------------------------------------------------------
  // Words
  // ------------------------------------------------------------------

  function Pow(k: nat): (p: nat)
    ensures p > 0
  {
    if k == 0 then 1 else 2 * Pow(k - 1)
  }

  // a | b
  function Or(a: nat, b: nat): nat
    decreases a
  {
    if a == 0 then b
    else 2 * Or(a / 2, b / 2) + if a % 2 == 1 || b % 2 == 1 then 1 else 0
  }

  // An int that wraps, and an int converted to uint64_t.
  function Int32(x: int): int {
    (x + 0x8000_0000) % 0x1_0000_0000 - 0x8000_0000
  }

  function Word64(x: int): nat {
    x % 0x1_0000_0000_0000_0000
  }

  // The int64_t with the bits of w.
  function Signed64(w: nat): int {
    if w < 0x8000_0000_0000_0000 then w else w - 0x1_0000_0000_0000_0000
  }

  // Words without a common bit are or'ed by adding.
  lemma {:induction false} OrAdds(a: nat, b: nat, q: nat, k: nat)
    requires a < Pow(k) && b == q * Pow(k)
    ensures Or(a, b) == a + b
  {
    if a != 0 {
      assert k > 0;
      var p := q * Pow(k - 1);
      assert b == 2 * p by {
        assert q * (2 * Pow(k - 1)) == 2 * (q * Pow(k - 1));
      }
      OrAdds(a / 2, p, q, k - 1);
    }
  }

  // 1 << 7 * i
  function Unit(i: nat): nat
    requires i <= 4
  {
    if i == 0 then 1 else if i == 1 then 0x80 else if i == 2 then 0x4000 else if i == 3 then 0x20_0000 else 0x1000_0000
  }

  lemma UnitIsPow(i: nat)
    requires i <= 4
    ensures Unit(i) == Pow(7 * i)
  {
    PowAdd(0);
    PowAdd(7);
    PowAdd(14);
    PowAdd(21);
  }

  lemma PowAdd(k: nat)
    ensures Pow(k + 7) == 128 * Pow(k)
  {
    assert Pow(k + 7) == 2 * Pow(k + 6) && Pow(k + 6) == 2 * Pow(k + 5) && Pow(k + 5) == 2 * Pow(k + 4);
    assert Pow(k + 4) == 2 * Pow(k + 3) && Pow(k + 3) == 2 * Pow(k + 2) && Pow(k + 2) == 2 * Pow(k + 1);
  }

  // ------------------------------------------------------------------
  // The loops
  // ------------------------------------------------------------------

  // What (b & 0x7f) << 7 * i gives for i > 4.
  type Wild = (Byte, nat) -> nat

  // (b & 0x7f) << 7 * i, as or'ed into ret.
  function Piece(b: Byte, i: nat, wild: Wild): nat {
    if i <= 4 then Word64(Int32((b % 128) * Unit(i))) else wild(b, i)
  }

  // -1 << 7 * i, as or'ed into ret.
  function Fill(i: nat): nat
    requires i <= 4
  {
    Word64(Int32(-1 * Unit(i)))
  }

  // The bytes s begin with an encoding, of any length.
  predicate Ends(s: seq<Byte>) {
    s != [] && (s[0] >= 128 ==> Ends(s[1..]))
  }

  function Count(s: seq<Byte>): (n: nat)
    requires Ends(s)
    ensures 1 <= n <= |s|
  {
    if s[0] >= 128 then 1 + Count(s[1..]) else 1
  }

  // i bytes of the encoding were read before s.
  function Unsigned(s: seq<Byte>, i: nat, ret: nat, wild: Wild): nat
    requires Ends(s)
  {
    var r := Or(ret, Piece(s[0], i, wild));
    if s[0] >= 128 then Unsigned(s[1..], i + 1, r, wild) else r
  }

  // The signed form fills with ones when shift < 32, that is after at most four bytes.
  function Signed(s: seq<Byte>, i: nat, ret: nat, wild: Wild): int
    requires Ends(s)
  {
    var r := Or(ret, Piece(s[0], i, wild));
    if s[0] >= 128 then Signed(s[1..], i + 1, r, wild)
    else Signed64(if i + 1 < 5 && s[0] % 128 >= 64 then Or(r, Fill(i + 1)) else r)
  }

  method ReadUleb128(data: array<Byte>, offset: nat, wild: Wild) returns (ret: nat, next: nat)
    requires offset <= data.Length && Ends(data[offset..])
    ensures ret == Unsigned(data[offset..], 0, 0, wild) && next == offset + Count(data[offset..])
  {
    hide Or, Piece, Fill;
    ret, next := 0, offset;
    var shift := 0;
    var b: Byte := 128;
    while b >= 128
      invariant offset <= next <= data.Length && shift == 7 * (next - offset)
      invariant b >= 128 ==>
        Ends(data[next..])
        && Unsigned(data[offset..], 0, 0, wild) == Unsigned(data[next..], next - offset, ret, wild)
        && Count(data[offset..]) == next - offset + Count(data[next..])
      invariant b < 128 ==> Unsigned(data[offset..], 0, 0, wild) == ret && Count(data[offset..]) == next - offset
      decreases data.Length - next
    {
      b := data[next];
      assert data[next..][1..] == data[next + 1..];
      ret := Or(ret, Piece(b, shift / 7, wild));
      next := next + 1;
      shift := shift + 7;
    }
  }

  method ReadSleb128(data: array<Byte>, offset: nat, wild: Wild) returns (ret: int, next: nat)
    requires offset <= data.Length && Ends(data[offset..])
    ensures ret == Signed(data[offset..], 0, 0, wild) && next == offset + Count(data[offset..])
  {
    hide Or, Piece, Fill;
    var r: nat := 0;
    next := offset;
    var shift := 0;
    var b: Byte := 128;
    while b >= 128
      invariant offset <= next <= data.Length && shift == 7 * (next - offset)
      invariant b >= 128 ==>
        Ends(data[next..])
        && Signed(data[offset..], 0, 0, wild) == Signed(data[next..], next - offset, r, wild)
        && Count(data[offset..]) == next - offset + Count(data[next..])
      invariant b < 128 ==>
        1 <= next - offset && Count(data[offset..]) == next - offset
        && Signed(data[offset..], 0, 0, wild) == Signed64(if shift < 32 && b % 128 >= 64 then Or(r, Fill(next - offset)) else r)
      decreases data.Length - next
    {
      b := data[next];
      assert data[next..][1..] == data[next + 1..];
      r := Or(r, Piece(b, shift / 7, wild));
      next := next + 1;
      shift := shift + 7;
    }
    if shift < 32 && b % 128 >= 64 {
      r := Or(r, Fill(shift / 7));
    }
    ret := Signed64(r);
  }

  // The pointer forms step through the bytes themselves.
  method DecodeUleb128(dp: seq<Byte>, wild: Wild) returns (ret: nat, rest: seq<Byte>)
    requires Ends(dp)
    ensures ret == Unsigned(dp, 0, 0, wild) && rest == dp[Count(dp)..]
  {
    hide Or, Piece, Fill;
    ret, rest := 0, dp;
    var shift := 0;
    var b: Byte := 128;
    while b >= 128
      invariant |rest| <= |dp| && rest == dp[|dp| - |rest|..] && shift == 7 * (|dp| - |rest|)
      invariant b >= 128 ==>
        Ends(rest) && Unsigned(dp, 0, 0, wild) == Unsigned(rest, |dp| - |rest|, ret, wild)
        && Count(dp) == |dp| - |rest| + Count(rest)
      invariant b < 128 ==> Unsigned(dp, 0, 0, wild) == ret && Count(dp) == |dp| - |rest|
      decreases |rest|
    {
      b := rest[0];
      ret := Or(ret, Piece(b, shift / 7, wild));
      rest := rest[1..];
      shift := shift + 7;
    }
  }

  method DecodeSleb128(dp: seq<Byte>, wild: Wild) returns (ret: int, rest: seq<Byte>)
    requires Ends(dp)
    ensures ret == Signed(dp, 0, 0, wild) && rest == dp[Count(dp)..]
  {
    hide Or, Piece, Fill;
    var r: nat := 0;
    rest := dp;
    var shift := 0;
    var b: Byte := 128;
    while b >= 128
      invariant |rest| <= |dp| && rest == dp[|dp| - |rest|..] && shift == 7 * (|dp| - |rest|)
      invariant b >= 128 ==>
        Ends(rest) && Signed(dp, 0, 0, wild) == Signed(rest, |dp| - |rest|, r, wild)
        && Count(dp) == |dp| - |rest| + Count(rest)
      invariant b < 128 ==>
        1 <= |dp| - |rest| && Count(dp) == |dp| - |rest|
        && Signed(dp, 0, 0, wild) == Signed64(if shift < 32 && b % 128 >= 64 then Or(r, Fill(|dp| - |rest|)) else r)
      decreases |rest|
    {
      b := rest[0];
      r := Or(r, Piece(b, shift / 7, wild));
      rest := rest[1..];
      shift := shift + 7;
    }
    if shift < 32 && b % 128 >= 64 {
      r := Or(r, Fill(shift / 7));
    }
    ret := Signed64(r);
  }

  // ------------------------------------------------------------------
  // The encoders of the standard
  // ------------------------------------------------------------------

  function EncodeUnsigned(v: nat): (s: seq<Byte>)
    ensures s != []
  {
    if v < 128 then [v] else [v % 128 + 128] + EncodeUnsigned(v / 128)
  }

  function EncodeSigned(v: int): (s: seq<Byte>)
    ensures s != []
    decreases if v < 0 then -v else v
  {
    if -64 <= v < 64 then [v % 128] else [v % 128 + 128] + EncodeSigned(v / 128)
  }

  // Room for 35 - 7 * i bits.
  function Room(i: nat): nat
    requires i <= 4
  {
    if i == 0 then 0x8_0000_0000 else if i == 1 then 0x1000_0000 else if i == 2 then 0x20_0000
    else if i == 3 then 0x4000 else 0x80
  }

  lemma WrapIs(x: int, q: int, r: int)
    requires x == q * 0x1_0000_0000 + r && 0 <= r < 0x1_0000_0000
    ensures x % 0x1_0000_0000 == r
  {
  }

  // Multiples of a unit wrap to multiples of it, so adding less than a unit does not carry.
  lemma WrapAdd(k: int, a: nat, u: nat, c: nat)
    requires u > a && u * c == 0x8000_0000
    ensures Int32(k * u + a) == Int32(k * u) + a
    ensures Int32(k * u) < 0 ==> Int32(k * u) + a < 0
  {
    var x := k * u + 0x8000_0000;
    var q, r := x / 0x1_0000_0000, x % 0x1_0000_0000;
    var t := k + c - q * (2 * c);
    assert r == u * t by {
      assert u * t == u * k + u * c - u * (q * (2 * c));
      assert u * (q * (2 * c)) == q * (2 * (u * c));
    }
    Multiple(u, t, 2 * c);
    Multiple(u, t, c);
    WrapIs(x + a, q, r + a);
  }

  lemma Multiple(u: nat, t: int, c: nat)
    requires u > 0
    ensures u * t < u * c ==> u * t + u <= u * c
  {
    if t >= c {
      assert u * t >= u * c;
    } else {
      assert u * t + u == u * (t + 1) <= u * c;
    }
  }

  lemma UnitTimes(i: nat)
    requires i < 4
    ensures Unit(i + 1) == 128 * Unit(i)
    ensures Unit(i + 1) * UnitsIn31(i + 1) == 0x8000_0000
  {
  }

  // 2^31 in units.
  function UnitsIn31(i: nat): nat
    requires i <= 4
  {
    if i == 0 then 0x8000_0000 else if i == 1 then 0x100_0000 else if i == 2 then 0x2_0000
    else if i == 3 then 0x400 else 8
  }

  // The low seven bits do not reach the next unit.
  lemma AddLow(v: int, i: nat)
    requires i < 4
    ensures Int32(v * Unit(i)) == (v % 128) * Unit(i) + Int32(v / 128 * Unit(i + 1))
    ensures Word64(Int32(v * Unit(i))) == (v % 128) * Unit(i) + Word64(Int32(v / 128 * Unit(i + 1)))
  {
    UnitTimes(i);
    var c := UnitsIn31(i + 1);
    var q, r, u := v / 128, v % 128, Unit(i);
    assert v * u == q * Unit(i + 1) + r * u by {
      assert v == 128 * q + r;
      assert (128 * q + r) * u == q * (128 * u) + r * u;
    }
    assert r * u < 128 * u;
    WrapAdd(q, r * u, Unit(i + 1), c);
  }

  function Units(b: Byte, i: nat): nat
    requires i <= 4
  {
    if i < 4 then b % 128 else if b % 16 < 8 then b % 16 else b % 16 + 0xf_ffff_fff0
  }

  // Every piece is a multiple of its unit, and pieces below the fifth byte do not wrap.
  lemma PieceShape(b: Byte, i: nat, wild: Wild)
    requires i <= 4
    ensures i < 4 ==> Piece(b, i, wild) == (b % 128) * Unit(i) && Piece(b, i, wild) + Unit(i) <= Unit(i + 1)
    ensures Piece(b, i, wild) == Units(b, i) * Unit(i)
  {
    if i < 4 {
      SmallPiece(b % 128, i);
    } else {
      TopShape(b, wild);
    }
  }

  lemma TopShape(b: Byte, wild: Wild)
    ensures Piece(b, 4, wild) == Units(b, 4) * 0x1000_0000
  {
    hide Int32;
    TopPiece(b % 128);
    assert b % 128 % 16 == b % 16;
  }

  lemma SmallPiece(r: nat, i: nat)
    requires r < 128 && i < 4
    ensures Word64(Int32(r * Unit(i))) == r * Unit(i) && r * Unit(i) + Unit(i) <= Unit(i + 1)
  {
    assert 0 <= r * Unit(i) < 0x1000_0000 by {
      if i == 0 { assert r * Unit(0) == r; }
      else if i == 1 { assert r * Unit(1) == r * 0x80; }
      else if i == 2 { assert r * Unit(2) == r * 0x4000; }
      else { assert r * Unit(3) == r * 0x20_0000; }
    }
    UnitTimes(i);
    assert (r + 1) * Unit(i) <= 128 * Unit(i);
  }

  lemma OrPiece(ret: nat, b: Byte, i: nat, wild: Wild)
    requires i <= 4 && ret < Unit(i)
    ensures Or(ret, Piece(b, i, wild)) == ret + Piece(b, i, wild)
    ensures i < 4 ==> ret + Piece(b, i, wild) < Unit(i + 1)
  {
    PieceShape(b, i, wild);
    UnitIsPow(i);
    OrAdds(ret, Piece(b, i, wild), Units(b, i), 7 * i);
  }

  lemma RoomNext(v: int, i: nat)
    requires i <= 4
    ensures i < 4 && v < Room(i) ==> v / 128 < Room(i + 1)
    ensures i < 4 && -(Room(i) / 2) <= v < Room(i) / 2 ==> -(Room(i + 1) / 2) <= v / 128 < Room(i + 1) / 2
    ensures i == 4 ==> Room(i) == 128
  {
  }

  lemma {:induction false} UnsignedOfEncoding(v: nat, i: nat, ret: nat, rest: seq<Byte>, wild: Wild)
    requires i <= 4 && v < Room(i) && ret < Unit(i)
    ensures var s := EncodeUnsigned(v) + rest;
      && Ends(s) && Count(s) == |EncodeUnsigned(v)|
      && Unsigned(s, i, ret, wild) == ret + Word64(Int32(v * Unit(i)))
  {
    hide Or, Int32, Word64, Unit, Room;
    var s := EncodeUnsigned(v) + rest;
    OrPiece(ret, s[0], i, wild);
    RoomNext(v, i);
    if v >= 128 {
      UnsignedOfEncoding(v / 128, i + 1, ret + Piece(s[0], i, wild), rest, wild);
      assert s[1..] == EncodeUnsigned(v / 128) + rest;
      PieceShape(s[0], i, wild);
      AddLow(v, i);
    }
  }

  // Whatever its length, an encoding is consumed to its last byte and no further.
  lemma {:induction false} UnsignedConsumed(v: nat, rest: seq<Byte>)
    ensures var s := EncodeUnsigned(v) + rest; Ends(s) && Count(s) == |EncodeUnsigned(v)|
  {
    if v >= 128 {
      UnsignedConsumed(v / 128, rest);
      assert (EncodeUnsigned(v) + rest)[1..] == EncodeUnsigned(v / 128) + rest;
    }
  }

  lemma {:induction false} SignedConsumed(v: int, rest: seq<Byte>)
    ensures var s := EncodeSigned(v) + rest; Ends(s) && Count(s) == |EncodeSigned(v)|
    decreases if v < 0 then -v else v
  {
    hide EncodeSigned;
    SignedHead(v, rest);
    if !(-64 <= v < 64) {
      SignedConsumed(v / 128, rest);
    }
  }

  // The unsigned decoders consume the bytes of v and no more.  While these are at most five, whose shifts C
  // defines, they return v exactly when it is below 2^31.
  lemma UnsignedRoundTrip(v: nat, rest: seq<Byte>, wild: Wild)
    ensures var s := EncodeUnsigned(v) + rest;
      && Ends(s) && s[Count(s)..] == rest
      && (v < 0x8_0000_0000 ==> (Unsigned(s, 0, 0, wild) == v <==> v < 0x8000_0000))
  {
    hide Unsigned, EncodeUnsigned, Or;
    UnsignedConsumed(v, rest);
    if v < 0x8_0000_0000 {
      UnsignedOfEncoding(v, 0, 0, rest, wild);
    }
  }

  lemma OrFill(r: nat, i: nat)
    requires 1 <= i <= 4 && r < Unit(i)
    ensures Or(r, Fill(i)) == r + TWO64 - Unit(i)
  {
    UnitIsPow(i);
    var q := TWO64 / Unit(i) - 1;
    assert Fill(i) == q * Unit(i);
    OrAdds(r, Fill(i), q, 7 * i);
  }

  // The last byte of a signed encoding, with its fill.
  lemma LastSigned(v: int, i: nat, ret: nat, wild: Wild)
    requires i <= 4 && -64 <= v < 64 && ret < Unit(i)
    ensures Signed([v % 128], i, ret, wild) == ret + Int32(v * Unit(i))
  {
    hide Or, Int32, Word64, Unit;
    var b := v % 128;
    OrPiece(ret, b, i, wild);
    PieceShape(b, i, wild);
    if i < 4 {
      if v < 0 {
        OrFill(ret + Piece(b, i, wild), i + 1);
      }
      ShortSigned(v, i, ret);
    } else {
      LongSigned(v, ret);
    }
  }

  // After at most four bytes the fill makes the value negative.
  lemma ShortSigned(v: int, i: nat, ret: nat)
    requires i < 4 && -64 <= v < 64 && ret < Unit(i)
    ensures v >= 0 ==> Signed64(ret + (v % 128) * Unit(i)) == ret + Int32(v * Unit(i))
    ensures v < 0 ==> Signed64(ret + (v % 128) * Unit(i) + TWO64 - Unit(i + 1)) == ret + Int32(v * Unit(i))
  {
    if i == 0 {
      assert v * Unit(0) == v && (v % 128) * Unit(0) == v % 128;
    } else if i == 1 {
      assert v * Unit(1) == v * 0x80 && (v % 128) * Unit(1) == (v % 128) * 0x80;
    } else if i == 2 {
      assert v * Unit(2) == v * 0x4000 && (v % 128) * Unit(2) == (v % 128) * 0x4000;
    } else {
      assert v * Unit(3) == v * 0x20_0000 && (v % 128) * Unit(3) == (v % 128) * 0x20_0000;
    }
  }

  // The fifth byte reaches the sign bit of the int by itself.
  lemma LongSigned(v: int, ret: nat)
    requires -64 <= v < 64 && ret < Unit(4)
    ensures Signed64(ret + Word64(Int32((v % 128) * Unit(4)))) == ret + Int32(v * Unit(4))
  {
    hide Int32;
    TopPiece(v);
    TopPiece(v % 128);
    assert v % 128 % 16 == v % 16;
  }

  lemma TopPiece(r: int)
    ensures Int32(r * Unit(4)) == (if r % 16 < 8 then r % 16 else r % 16 - 16) * 0x1000_0000
  {
    var h, l := r / 16, r % 16;
    WrapIs(r * 0x1000_0000 + 0x8000_0000, if l < 8 then h else h + 1,
           if l < 8 then l * 0x1000_0000 + 0x8000_0000 else l * 0x1000_0000 - 0x8000_0000);
  }

  lemma SignedPrefix(s: seq<Byte>, rest: seq<Byte>, i: nat, ret: nat, wild: Wild)
    requires |s| == 1 && s[0] < 128 && i <= 4
    ensures Ends(s) && Ends(s + rest) && Signed(s + rest, i, ret, wild) == Signed(s, i, ret, wild)
  {
    assert (s + rest)[0] == s[0];
  }

  lemma SignedHead(v: int, rest: seq<Byte>)
    ensures var s := EncodeSigned(v) + rest;
      s[0] == v % 128 + (if -64 <= v < 64 then 0 else 128)
      && (!(-64 <= v < 64) ==>
            s[1..] == EncodeSigned(v / 128) + rest && |EncodeSigned(v)| == 1 + |EncodeSigned(v / 128)|)
    ensures -64 <= v < 64 ==> EncodeSigned(v) == [v % 128]
  {
    if !(-64 <= v < 64) {
      HeadTail(v % 128 + 128, EncodeSigned(v / 128), rest);
    }
  }

  lemma HeadTail(x: Byte, t: seq<Byte>, r: seq<Byte>)
    ensures var s := [x] + t; |s| == 1 + |t| && (s + r)[0] == x && (s + r)[1..] == t + r
  {
  }

  lemma {:induction false} SignedOfEncoding(v: int, i: nat, ret: nat, rest: seq<Byte>, wild: Wild)
    requires i <= 4 && -(Room(i) / 2) <= v < Room(i) / 2 && ret < Unit(i)
    ensures var s := EncodeSigned(v) + rest;
      && Ends(s) && Count(s) == |EncodeSigned(v)|
      && Signed(s, i, ret, wild) == ret + Int32(v * Unit(i))
    decreases if v < 0 then -v else v
  {
    hide Or, Int32, Word64, Unit, Room, EncodeSigned;
    var s := EncodeSigned(v) + rest;
    SignedHead(v, rest);
    RoomNext(v, i);
    if -64 <= v < 64 {
      LastSigned(v, i, ret, wild);
      SignedPrefix([v % 128], rest, i, ret, wild);
    } else {
      OrPiece(ret, s[0], i, wild);
      SignedOfEncoding(v / 128, i + 1, ret + Piece(s[0], i, wild), rest, wild);
      PieceShape(s[0], i, wild);
      AddLow(v, i);
    }
  }

  // The signed decoders likewise; they return v exactly when -2^31 <= v < 2^31, counting on the fifth shift
  // to wrap.
  lemma SignedRoundTrip(v: int, rest: seq<Byte>, wild: Wild)
    ensures var s := EncodeSigned(v) + rest;
      && Ends(s) && s[Count(s)..] == rest
      && (-0x4_0000_0000 <= v < 0x4_0000_0000 ==>
            (Signed(s, 0, 0, wild) == v <==> -0x8000_0000 <= v < 0x8000_0000))
  {
    hide Signed, EncodeSigned, Or;
    SignedConsumed(v, rest);
    if -0x4_0000_0000 <= v < 0x4_0000_0000 {
      SignedOfEncoding(v, 0, 0, rest, wild);
    }
  }

  // No shift leaves the int for an encoding of at most four bytes: for a signed value exactly when
  // -2^27 <= v < 2^27.
  lemma FourBytes(v: int)
    ensures |EncodeSigned(v)| <= 4 <==> -0x800_0000 <= v < 0x800_0000
  {
    var a := v / 128;
    var b := a / 128;
    var c := b / 128;
    var d := c / 128;
    assert |EncodeSigned(c)| == if -64 <= c < 64 then 1 else 1 + |EncodeSigned(d)|;
    assert |EncodeSigned(b)| == if -64 <= b < 64 then 1 else 1 + |EncodeSigned(c)|;
    assert |EncodeSigned(a)| == if -64 <= a < 64 then 1 else 1 + |EncodeSigned(b)|;
  }
}
