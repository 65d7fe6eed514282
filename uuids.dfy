/**
 * The 128-bit identifiers the jobs are keyed by, and their text form: the
 * uuid crate's `Display` writes the sixteen bytes as lower-case hexadecimal
 * in groups of 8-4-4-4-12 digits separated by hyphens.
 */
module Uuids {

  type byte = x: int | 0 <= x < 256

  type Uuid = s: seq<byte> | |s| == 16 witness seq(16, i => 0)

  function HexDigit(n: int): (c: char)
    requires 0 <= n < 16
  {
    "0123456789abcdef"[n]
  }

  lemma HexDigitInjective(m: int, n: int)
    requires 0 <= m < 16 && 0 <= n < 16
    ensures HexDigit(m) == HexDigit(n) ==> m == n
  {
  }

  /** Two lower-case hexadecimal digits per byte, high nibble first. */
  function Hex(bs: seq<byte>): (r: string)
    ensures |r| == 2 * |bs|
    ensures forall k :: 0 <= k < |bs| ==> r[2 * k] == HexDigit(bs[k] / 16) && r[2 * k + 1] == HexDigit(bs[k] % 16)
  {
    if bs == [] then [] else [HexDigit(bs[0] / 16), HexDigit(bs[0] % 16)] + Hex(bs[1..])
  }

  lemma {:induction false} HexInjective(a: seq<byte>, b: seq<byte>)
    requires |a| == |b|
    requires Hex(a) == Hex(b)
    ensures a == b
    decreases |a|
  {
    if a != [] {
      var ha, hb := Hex(a), Hex(b);
      assert ha[0] == hb[0] && ha[1] == hb[1];
      HexDigitInjective(a[0] / 16, b[0] / 16);
      HexDigitInjective(a[0] % 16, b[0] % 16);
      assert a[0] == b[0];
      assert Hex(a[1..]) == ha[2..] == hb[2..] == Hex(b[1..]);
      HexInjective(a[1..], b[1..]);
      assert a == [a[0]] + a[1..];
      assert b == [b[0]] + b[1..];
    }
  }

  /** The hyphenated text form of an identifier, as `format!("{}", id)` writes it. */
  function ToString(u: Uuid): (r: string)
    ensures |r| == 36
    ensures r[8] == '-' && r[13] == '-' && r[18] == '-' && r[23] == '-'
  {
    Hex(u[..4]) + "-" + Hex(u[4..6]) + "-" + Hex(u[6..8]) + "-" + Hex(u[8..10]) + "-" + Hex(u[10..])
  }

  lemma HyphenJoin(x: string, y: string)
    ensures (x + "-" + y)[..|x|] == x && (x + "-" + y)[|x| + 1..] == y
  {
  }

  /** The five hyphen-separated groups of the text form, and the bytes each one shows. */
  lemma ToStringGroups(u: Uuid)
    ensures ToString(u)[..8] == Hex(u[..4])
    ensures ToString(u)[9..13] == Hex(u[4..6])
    ensures ToString(u)[14..18] == Hex(u[6..8])
    ensures ToString(u)[19..23] == Hex(u[8..10])
    ensures ToString(u)[24..] == Hex(u[10..])
  {
    var s := ToString(u);
    var g1 := Hex(u[..4]);
    var g12 := g1 + "-" + Hex(u[4..6]);
    var g123 := g12 + "-" + Hex(u[6..8]);
    var g1234 := g123 + "-" + Hex(u[8..10]);
    HyphenJoin(g1234, Hex(u[10..]));
    HyphenJoin(g123, Hex(u[8..10]));
    HyphenJoin(g12, Hex(u[6..8]));
    HyphenJoin(g1, Hex(u[4..6]));
    assert s[..23][..18][..13][..8] == s[..8];
    assert s[..23][..18][..13][9..] == s[9..13];
    assert s[..23][..18][14..] == s[14..18];
    assert s[..23][19..] == s[19..23];
  }

  /** Distinct identifiers have distinct text forms. */
  lemma ToStringInjective(a: Uuid, b: Uuid)
    ensures ToString(a) == ToString(b) ==> a == b
  {
    if ToString(a) == ToString(b) {
      ToStringGroups(a);
      ToStringGroups(b);
      HexInjective(a[..4], b[..4]);
      HexInjective(a[4..6], b[4..6]);
      HexInjective(a[6..8], b[6..8]);
      HexInjective(a[8..10], b[8..10]);
      HexInjective(a[10..], b[10..]);
      Regroup(a);
      Regroup(b);
    }
  }

  lemma Regroup(u: Uuid)
    ensures u == u[..4] + u[4..6] + u[6..8] + u[8..10] + u[10..]
  {
  }

  /** The first two characters of the text form are the digits of the first byte. */
  lemma ToStringPrefix(u: Uuid)
    ensures ToString(u)[..2] == [HexDigit(u[0] / 16), HexDigit(u[0] % 16)]
  {
    var s := ToString(u);
    assert s[..8] == Hex(u[..4]);
    assert Hex(u[..4])[..2] == [HexDigit(u[..4][0] / 16), HexDigit(u[..4][0] % 16)];
  }

  /** The text form begins with "62" exactly when the first byte is 0x62. */
  lemma ToStringStartsWith62(u: Uuid)
    ensures ToString(u)[..2] == "62" <==> u[0] == 0x62
  {
    ToStringPrefix(u);
    HexDigitInjective(u[0] / 16, 6);
    HexDigitInjective(u[0] % 16, 2);
  }
}
