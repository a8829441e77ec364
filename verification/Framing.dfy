/** Byte strings, UTF-8, and length-prefixed frames with the parser that inverts them. */
module Framing {
  import opened Wrappers

  type Byte = b: int | 0 <= b < 256
  type Bytes = seq<Byte>

  /** `int.to_bytes(8, "big")` raises from here on. */
  const LIMIT: nat := 0x1_0000_0000_0000_0000

  function Pow256(k: nat): nat { if k == 0 then 1 else 256 * Pow256(k - 1) }

  /** `n.to_bytes(width, "big")`. */
  function BigEndian(n: nat, width: nat): (b: Bytes)
    ensures |b| == width
  {
    if width == 0 then [] else BigEndian(n / 256, width - 1) + [n % 256]
  }

  /** `int.from_bytes(b, "big")`. */
  function Value(b: Bytes): nat { if b == [] then 0 else 256 * Value(b[..|b| - 1]) + b[|b| - 1] }

  lemma {:induction false} ValueInverts(n: nat, width: nat)
    requires n < Pow256(width)
    ensures Value(BigEndian(n, width)) == n
  {
    if width > 0 {
      ValueInverts(n / 256, width - 1);
      assert BigEndian(n, width)[..width - 1] == BigEndian(n / 256, width - 1);
    }
  }

  lemma {:induction false} BigEndianInverts(b: Bytes)
    ensures BigEndian(Value(b), |b|) == b
  {
    if b != [] {
      BigEndianInverts(b[..|b| - 1]);
      assert b == b[..|b| - 1] + [b[|b| - 1]];
    }
  }

  lemma Pow8()
    ensures Pow256(8) == LIMIT
  {
    assert Pow256(4) == 0x1_0000_0000;
    assert Pow256(8) == 256 * (256 * (256 * (256 * Pow256(4))));
  }

  /** A value behind its eight-byte length. */
  function Frame(v: Bytes): Bytes { BigEndian(|v|, 8) + v }

  /** Splits a stream after its first frame. */
  function Unframe(s: Bytes): (r: Option<(Bytes, Bytes)>)
    ensures r.Some? ==> |r.value.1| < |s|
  {
    if |s| < 8 || |s| < 8 + Value(s[..8]) then None
    else Some((s[8..8 + Value(s[..8])], s[8 + Value(s[..8])..]))
  }

  lemma UnframeInverts(v: Bytes, rest: Bytes)
    requires |v| < LIMIT
    ensures Unframe(Frame(v) + rest) == Some((v, rest))
  {
    Pow8();
    ValueInverts(|v|, 8);
    var s := Frame(v) + rest;
    assert s[..8] == BigEndian(|v|, 8);
    assert s[8..8 + |v|] == v && s[8 + |v|..] == rest;
  }

  /** Only a frame unframes: the parser accepts nothing the writer does not write. */
  lemma FrameInverts(s: Bytes)
    requires Unframe(s).Some?
    ensures s == Frame(Unframe(s).value.0) + Unframe(s).value.1
  {
    BigEndianInverts(s[..8]);
    var n := Value(s[..8]);
    assert s == s[..8] + s[8..8 + n] + s[8 + n..];
  }

  /** Two streams that open with equal frames continue equally. */
  lemma FrameCancels(v: Bytes, w: Bytes, r: Bytes, s: Bytes)
    requires |v| < LIMIT && |w| < LIMIT && Frame(v) + r == Frame(w) + s
    ensures v == w && r == s
  {
    UnframeInverts(v, r);
    UnframeInverts(w, s);
  }

  /** UTF-8 (RFC 3629, section 3) of one code point. */
  function EncodeCode(n: nat): (r: Bytes)
    requires n < 0x11_0000
    ensures 1 <= |r| <= 4
  {
    if n < 0x80 then [n]
    else if n < 0x800 then [0xC0 + n / 64, 0x80 + n % 64]
    else if n < 0x1_0000 then [0xE0 + n / 64 / 64, 0x80 + n / 64 % 64, 0x80 + n % 64]
    else [0xF0 + n / 64 / 64 / 64, 0x80 + n / 64 / 64 % 64, 0x80 + n / 64 % 64, 0x80 + n % 64]
  }

  /** The code point back from the bytes one character takes. */
  function DecodeCode(b: Bytes): int {
    match |b|
    case 1 => b[0]
    case 2 => (b[0] as int - 0xC0) * 64 + (b[1] as int - 0x80)
    case 3 => ((b[0] as int - 0xE0) * 64 + (b[1] as int - 0x80)) * 64 + (b[2] as int - 0x80)
    case 4 => (((b[0] as int - 0xF0) * 64 + (b[1] as int - 0x80)) * 64 + (b[2] as int - 0x80)) * 64
        + (b[3] as int - 0x80)
    case _ => -1
  }

  /** The number of bytes a lead byte announces. */
  function LeadLength(b: Byte): nat {
    if b < 0x80 then 1 else if b < 0xE0 then 2 else if b < 0xF0 then 3 else 4
  }

  lemma DecodeInverts(n: nat)
    requires n < 0x11_0000
    ensures DecodeCode(EncodeCode(n)) == n && LeadLength(EncodeCode(n)[0]) == |EncodeCode(n)|
  {
    assert n == n / 64 * 64 + n % 64;
    assert n / 64 == n / 64 / 64 * 64 + n / 64 % 64;
    assert n / 64 / 64 == n / 64 / 64 / 64 * 64 + n / 64 / 64 % 64;
  }

  /** The shortest form: one byte for ASCII, and otherwise a lead byte of its range before continuation bytes. */
  lemma EncodesShortest(n: nat)
    requires n < 0x11_0000
    ensures var b := EncodeCode(n);
            && |b| == (if n < 0x80 then 1 else if n < 0x800 then 2 else if n < 0x1_0000 then 3 else 4)
            && (|b| == 1 ==> b == [n]) && (|b| == 2 ==> 0xC2 <= b[0] <= 0xDF) && (|b| == 3 ==> 0xE0 <= b[0] <= 0xEF)
            && (|b| == 4 ==> 0xF0 <= b[0] <= 0xF4) && forall i :: 1 <= i < |b| ==> 0x80 <= b[i] <= 0xBF
  {
  }

  function EncodeChar(c: char): Bytes { EncodeCode(c as int) }

  /** `str.encode("utf-8")`. */
  function Utf8(s: string): Bytes { if s == [] then [] else EncodeChar(s[0]) + Utf8(s[1..]) }

  /** ASCII text is its own encoding. */
  lemma {:induction false} AsciiIsItself(s: string)
    requires forall i :: 0 <= i < |s| ==> s[i] as int < 0x80
    ensures |Utf8(s)| == |s| && forall i :: 0 <= i < |s| ==> Utf8(s)[i] == s[i] as int
  {
    if s != [] {
      AsciiIsItself(s[1..]);
      EncodesShortest(s[0] as int);
    }
  }

  lemma EncodeCharCancels(c: char, d: char, r: Bytes, s: Bytes)
    requires EncodeChar(c) + r == EncodeChar(d) + s
    ensures c == d && r == s
  {
    DecodeInverts(c as int);
    DecodeInverts(d as int);
    hide EncodeCode, DecodeCode, LeadLength;
    var x, y := EncodeChar(c), EncodeChar(d);
    assert x[0] == (x + r)[0] && y[0] == (y + s)[0];
    assert x == (x + r)[..|x|] && y == (y + s)[..|y|];
    assert r == (x + r)[|x|..] && s == (y + s)[|y|..];
    assert c as int == d as int;
  }

  lemma {:induction false} Utf8Injective(a: string, b: string)
    requires Utf8(a) == Utf8(b)
    ensures a == b
  {
    if a != [] && b != [] {
      EncodeCharCancels(a[0], b[0], Utf8(a[1..]), Utf8(b[1..]));
      Utf8Injective(a[1..], b[1..]);
      assert a == [a[0]] + a[1..] && b == [b[0]] + b[1..];
    }
  }

  /** A hash that tells the given byte strings apart. */
  ghost predicate CollisionFree(hash: Bytes -> Bytes, values: set<Bytes>) {
    forall a, b :: a in values && b in values && hash(a) == hash(b) ==> a == b
  }
}
