/** The UTF-8 encoding of a character (section 3 of RFC 3629). */
module Utf8 {
  import opened Ranges

  predicate IsScalar(c: nat) {
    c < 0xD800 || 0xE000 <= c < 0x11_0000
  }

  type Scalar = c: nat | IsScalar(c)

  function Tail(v: nat): (b: Byte)
    ensures 0x80 <= b < 0xC0
  {
    (0x80 + v % 64) as Byte
  }

  function Encode(c: Scalar): (w: seq<Byte>)
    ensures 1 <= |w| <= 4
  {
    if c < 0x80 then [c as Byte]
    else if c < 0x800 then [(0xC0 + c / 64) as Byte, Tail(c)]
    else if c < 0x1_0000 then
      assert c / 4096 < 16;
      [(0xE0 + c / 4096) as Byte, Tail(c / 64), Tail(c)]
    else
      assert IsScalar(c) && c / 262144 < 8;
      [(0xF0 + c / 262144) as Byte, Tail(c / 4096), Tail(c / 64), Tail(c)]
  }

  /** The number of bytes a leading byte announces; 0 for a byte that cannot lead. */
  function Announced(b: Byte): nat {
    if b < 0x80 then 1
    else if b < 0xC0 then 0
    else if b < 0xE0 then 2
    else if b < 0xF0 then 3
    else if b < 0xF8 then 4
    else 0
  }

  function Payload(b: Byte): nat {
    b as nat % 64
  }

  /** The value of the first character of `w`, and how many bytes it takes. */
  function DecodeFirst(w: seq<Byte>): Option<(nat, nat)> {
    if w == [] then None
    else
      var n := Announced(w[0]);
      if n == 0 || n > |w| then None
      else if n == 1 then Some((w[0] as nat, 1))
      else if n == 2 then Some(((w[0] as nat - 0xC0) * 64 + Payload(w[1]), 2))
      else if n == 3 then Some(((w[0] as nat - 0xE0) * 4096 + Payload(w[1]) * 64 + Payload(w[2]), 3))
      else Some(((w[0] as nat - 0xF0) * 262144 + Payload(w[1]) * 4096 + Payload(w[2]) * 64 + Payload(w[3]), 4))
  }

  lemma {:induction false} TailPayload(v: nat)
    ensures Payload(Tail(v)) == v % 64
  {
    assert Tail(v) as nat == 128 + v % 64;
  }

  lemma {:induction false} Digits(c: nat)
    ensures c == c / 64 * 64 + c % 64
    ensures c == c / 4096 * 4096 + c / 64 % 64 * 64 + c % 64
    ensures c == c / 262144 * 262144 + c / 4096 % 64 * 4096 + c / 64 % 64 * 64 + c % 64
  {
    assert c / 64 / 64 == c / 4096 && c / 4096 / 64 == c / 262144;
    var d, e := c / 64, c / 4096;
    assert d == d / 64 * 64 + d % 64 && e == e / 64 * 64 + e % 64;
  }

  /** A character in front of anything decodes to itself: encodings are distinct, and none is a prefix of another. */
  lemma {:induction false} EncodeDecodes(c: Scalar, rest: seq<Byte>)
    ensures DecodeFirst(Encode(c) + rest) == Some((c, |Encode(c)|))
  {
    var w := Encode(c) + rest;
    assert forall k :: 0 <= k < |Encode(c)| ==> w[k] == Encode(c)[k];
    Digits(c);
    TailPayload(c);
    TailPayload(c / 64);
    TailPayload(c / 4096);
    if c < 0x80 {
    } else if c < 0x800 {
      assert Announced(w[0]) == 2;
    } else if c < 0x1_0000 {
      assert Announced(w[0]) == 3;
    } else {
      assert IsScalar(c) && c / 262144 < 8;
      assert Announced(w[0]) == 4;
    }
  }

  // ---- the encoding is the one of the standard ----

  /** No form that decodes to the character is shorter. */
  lemma {:induction false} ShortestForm(c: Scalar, w: seq<Byte>)
    requires DecodeFirst(w) == Some((c, |w|))
    ensures |Encode(c)| <= |w|
  {
    assert Announced(w[0]) == |w|;
  }

  /** A byte below 0x80 is the whole encoding of the character with that number. */
  lemma {:induction false} AsciiStandsAlone(c: Scalar, i: nat)
    requires i < |Encode(c)| && Encode(c)[i] < 0x80
    ensures c < 0x80 && Encode(c) == [c as Byte]
  {
  }

  predicate IsTail(b: Byte) {
    0x80 <= b <= 0xBF
  }

  /** The byte sequences of section 4 of RFC 3629 for one character. */
  predicate IsUtf8Char(w: seq<Byte>) {
    || (|w| == 1 && w[0] <= 0x7F)
    || (|w| == 2 && 0xC2 <= w[0] <= 0xDF && IsTail(w[1]))
    || (|w| == 3 && w[0] == 0xE0 && 0xA0 <= w[1] <= 0xBF && IsTail(w[2]))
    || (|w| == 3 && 0xE1 <= w[0] <= 0xEC && IsTail(w[1]) && IsTail(w[2]))
    || (|w| == 3 && w[0] == 0xED && 0x80 <= w[1] <= 0x9F && IsTail(w[2]))
    || (|w| == 3 && 0xEE <= w[0] <= 0xEF && IsTail(w[1]) && IsTail(w[2]))
    || (|w| == 4 && w[0] == 0xF0 && 0x90 <= w[1] <= 0xBF && IsTail(w[2]) && IsTail(w[3]))
    || (|w| == 4 && 0xF1 <= w[0] <= 0xF3 && IsTail(w[1]) && IsTail(w[2]) && IsTail(w[3]))
    || (|w| == 4 && w[0] == 0xF4 && 0x80 <= w[1] <= 0x8F && IsTail(w[2]) && IsTail(w[3]))
  }

  lemma {:induction false} EncodedIsUtf8(c: Scalar)
    ensures IsUtf8Char(Encode(c))
  {
    var w := Encode(c);
    assert IsScalar(c);
    Digits(c);
    assert |w| > 1 ==> w[|w| - 1] == Tail(c);
    assert |w| > 2 ==> w[|w| - 2] == Tail(c / 64);
    assert |w| > 3 ==> w[|w| - 3] == Tail(c / 4096);
  }

  /** The character a well-formed sequence stands for. */
  lemma {:induction false} Utf8IsEncoded(w: seq<Byte>) returns (c: Scalar)
    requires IsUtf8Char(w)
    ensures Encode(c) == w
  {
    if |w| == 1 {
      c := w[0] as nat;
    } else if |w| == 2 {
      c := Encoded2(w[0], w[1]);
    } else if |w| == 3 {
      c := Encoded3(w[0], w[1], w[2]);
    } else {
      c := Encoded4(w[0], w[1], w[2], w[3]);
    }
  }

  lemma {:induction false} Encoded2(a: Byte, b: Byte) returns (c: Scalar)
    requires 0xC2 <= a <= 0xDF && IsTail(b)
    ensures Encode(c) == [a, b]
  {
    c := (a as nat - 0xC0) * 64 + (b as nat - 0x80);
    assert c / 64 == a as nat - 0xC0 && c % 64 == b as nat - 0x80;
  }

  lemma {:induction false} Encoded3(a: Byte, b: Byte, d: Byte) returns (c: Scalar)
    requires IsUtf8Char([a, b, d])
    ensures Encode(c) == [a, b, d]
  {
    var x, y, z := a as nat - 0xE0, b as nat - 0x80, d as nat - 0x80;
    var v := x * 4096 + y * 64 + z;
    assert 0x800 <= v < 0x1_0000 && IsScalar(v);
    c := v;
    assert c / 64 == x * 64 + y && c % 64 == z;
    assert c / 4096 == x && c / 64 % 64 == y;
  }

  lemma {:induction false} Encoded4(a: Byte, b: Byte, d: Byte, e: Byte) returns (c: Scalar)
    requires IsUtf8Char([a, b, d, e])
    ensures Encode(c) == [a, b, d, e]
  {
    var x, y, z, u := a as nat - 0xF0, b as nat - 0x80, d as nat - 0x80, e as nat - 0x80;
    var v := x * 262144 + y * 4096 + z * 64 + u;
    assert 0x1_0000 <= v < 0x11_0000 && IsScalar(v);
    c := v;
    assert c / 64 == x * 4096 + y * 64 + z && c % 64 == u;
    assert c / 4096 == x * 64 + y && c / 64 % 64 == z;
    assert c / 262144 == x && c / 4096 % 64 == y;
  }

  /** Exactly the well-formed sequences are encodings. */
  lemma {:induction false} Utf8Exact(w: seq<Byte>)
    ensures IsUtf8Char(w) <==> exists c: Scalar :: Encode(c) == w
  {
    if c: Scalar :| Encode(c) == w {
      EncodedIsUtf8(c);
    }
    if IsUtf8Char(w) {
      var c := Utf8IsEncoded(w);
    }
  }

  /** The first difference of two words is in favour of `u`. */
  predicate FirstLess(u: seq<Byte>, v: seq<Byte>, k: nat) {
    k < |u| && k < |v| && u[..k] == v[..k] && u[k] < v[k]
  }

  lemma {:induction false} DigitsInOrder(c: nat, d: nat)
    requires c < d
    ensures c / 64 < d / 64 || (c / 64 == d / 64 && c % 64 < d % 64)
  {
    Digits(c);
    Digits(d);
  }

  lemma {:induction false} TailsInOrder(c: nat, d: nat)
    ensures c % 64 < d % 64 ==> Tail(c) < Tail(d)
    ensures c % 64 == d % 64 ==> Tail(c) == Tail(d)
  {
    assert Tail(c) as nat == 128 + c % 64 && Tail(d) as nat == 128 + d % 64;
  }

  /** The bytes behind the leading one, for the last `n` groups of six bits. */
  function Tails(c: nat, n: nat): (w: seq<Byte>)
    ensures |w| == n
  {
    if n == 0 then [] else Tails(c / 64, n - 1) + [Tail(c)]
  }

  function Shifted(c: nat, n: nat): nat {
    if n == 0 then c else Shifted(c / 64, n - 1)
  }

  /** Numbers with the same leading part are ordered like their tails. */
  lemma {:induction false} TailsKeepOrder(c: nat, d: nat, n: nat) returns (k: nat)
    requires c < d && Shifted(c, n) == Shifted(d, n)
    ensures FirstLess(Tails(c, n), Tails(d, n), k)
  {
    DigitsInOrder(c, d);
    TailsInOrder(c, d);
    if c / 64 < d / 64 {
      k := TailsKeepOrder(c / 64, d / 64, n - 1);
      var u, v := Tails(c / 64, n - 1), Tails(d / 64, n - 1);
      assert (u + [Tail(c)])[..k] == u[..k] && (v + [Tail(d)])[..k] == v[..k];
    } else {
      k := n - 1;
      var u := Tails(c / 64, n - 1);
      assert (u + [Tail(c)])[..k] == u && (u + [Tail(d)])[..k] == u;
    }
  }

  lemma {:induction false} ShiftedOrder(c: nat, d: nat, n: nat)
    requires c <= d
    ensures Shifted(c, n) <= Shifted(d, n)
  {
    if n > 0 {
      ShiftedOrder(c / 64, d / 64, n - 1);
    }
  }

  /** How many bytes follow the leading one, and by how much that one is marked. */
  function Following(c: nat): nat {
    if c < 0x80 then 0 else if c < 0x800 then 1 else if c < 0x1_0000 then 2 else 3
  }

  function Mark(n: nat): nat {
    if n == 0 then 0 else if n == 1 then 0xC0 else if n == 2 then 0xE0 else 0xF0
  }

  lemma {:induction false} EncodeParts(c: Scalar)
    ensures var n := Following(c);
      var lead := Mark(n) + Shifted(c, n);
      lead < 256 && Encode(c) == [lead as Byte] + Tails(c, n)
    ensures Shifted(c, Following(c)) < (if Following(c) == 0 then 0x80 else if Following(c) == 1 then 32 else 16)
  {
    assert IsScalar(c);
    assert c / 64 / 64 == c / 4096 && c / 4096 / 64 == c / 262144;
    assert Shifted(c / 4096, 1) == c / 262144 && Shifted(c / 64, 1) == c / 4096 && Shifted(c / 64, 2) == c / 262144;
    assert Shifted(c, 1) == c / 64 && Shifted(c, 2) == c / 4096 && Shifted(c, 3) == c / 262144;
    assert Tails(c, 1) == [Tail(c)];
    assert Tails(c, 2) == [Tail(c / 64), Tail(c)] by {
      assert Tails(c / 64, 1) == [Tail(c / 64)];
    }
    assert Tails(c, 3) == [Tail(c / 4096), Tail(c / 64), Tail(c)] by {
      assert Tails(c / 4096, 1) == [Tail(c / 4096)];
      assert Tails(c / 64, 2) == [Tail(c / 4096), Tail(c / 64)];
    }
  }

  /** Characters and their encodings are ordered alike: together with `Utf8Exact` this leaves one encoding only. */
  lemma {:induction false} EncodeKeepsOrder(c: Scalar, d: Scalar) returns (k: nat)
    requires c < d
    ensures FirstLess(Encode(c), Encode(d), k)
  {
    EncodeParts(c);
    EncodeParts(d);
    var m, n := Following(c), Following(d);
    k := 0;
    if m == n {
      ShiftedOrder(c, d, n);
      if Shifted(c, n) == Shifted(d, n) {
        var j := TailsKeepOrder(c, d, n);
        k := j + 1;
        LeadingSame(Encode(c)[0], Tails(c, n), Tails(d, n), j);
      }
    }
  }

  lemma {:induction false} LeadingSame(b: Byte, u: seq<Byte>, v: seq<Byte>, j: nat)
    requires FirstLess(u, v, j)
    ensures FirstLess([b] + u, [b] + v, j + 1)
  {
    assert ([b] + u)[..j + 1] == [b] + u[..j] && ([b] + v)[..j + 1] == [b] + v[..j];
  }
}
