/** UTF-8 as section 3 of RFC 3629 defines it, with Python's strict error handling. */
module Utf8 {
  import opened Outcomes

  type Byte = b: int | 0 <= b < 256

  /** A Python str is a sequence of code points; lone surrogates are possible. */
  type CodePoint = c: int | 0 <= c < 0x110000
  type PyString = seq<CodePoint>

  predicate IsScalar(c: CodePoint) { !(0xD800 <= c < 0xE000) }

  predicate IsScalarString(s: PyString) { forall i | 0 <= i < |s| :: IsScalar(s[i]) }

  predicate IsTail(b: Byte) { 0x80 <= b < 0xC0 }

  /** The payload of an octet whose leading bits are `mark`. */
  function Payload(b: Byte, mark: int): int {
    var n: int := b;
    n - mark
  }

  /** The table of section 3: 1 to 4 octets, high bits first. */
  function EncodeOne(c: CodePoint): (b: seq<Byte>)
    ensures 1 <= |b| <= 4
  {
    if c < 0x80 then [c]
    else if c < 0x800 then [0xC0 + c / 64, 0x80 + c % 64]
    else if c < 0x10000 then [0xE0 + c / 4096, 0x80 + c / 64 % 64, 0x80 + c % 64]
    else [0xF0 + c / 262144, 0x80 + c / 4096 % 64, 0x80 + c / 64 % 64, 0x80 + c % 64]
  }

  /** str.encode('utf-8'): a surrogate has no encoding. */
  function Encode(s: PyString): Outcome<seq<Byte>> {
    if s == [] then Returned([])
    else if !IsScalar(s[0]) then Raised(UnicodeError)
    else
      var rest :- Encode(s[1..]);
      Returned(EncodeOne(s[0]) + rest)
  }

  /** The next character of a byte string and the number of octets it takes. Overlong forms,
      encoded surrogates, values above 10FFFF and cut sequences are refused. */
  function DecodeOne(b: seq<Byte>): (r: Option<(CodePoint, nat)>)
    ensures r.Some? ==> 1 <= r.value.1 <= 4 && r.value.1 <= |b|
  {
    if |b| >= 1 && b[0] < 0x80 then
      Some((b[0], 1))
    else if |b| >= 2 && 0xC2 <= b[0] < 0xE0 && IsTail(b[1]) then
      Some((Payload(b[0], 0xC0) * 64 + Payload(b[1], 0x80), 2))
    else if |b| >= 3 && 0xE0 <= b[0] < 0xF0 && IsTail(b[1]) && IsTail(b[2]) then
      var c := Payload(b[0], 0xE0) * 4096 + Payload(b[1], 0x80) * 64 + Payload(b[2], 0x80);
      if c >= 0x800 && !(0xD800 <= c < 0xE000) then Some((c, 3)) else None
    else if |b| >= 4 && 0xF0 <= b[0] < 0xF5 && IsTail(b[1]) && IsTail(b[2]) && IsTail(b[3]) then
      var c := Payload(b[0], 0xF0) * 262144 + Payload(b[1], 0x80) * 4096
               + Payload(b[2], 0x80) * 64 + Payload(b[3], 0x80);
      if 0x10000 <= c < 0x110000 then Some((c, 4)) else None
    else
      None
  }

  /** bytes.decode('utf-8'). */
  function Decode(b: seq<Byte>): Outcome<PyString> {
    if b == [] then Returned([])
    else
      match DecodeOne(b)
      case None => Raised(UnicodeError)
      case Some((c, n)) =>
        var rest :- Decode(b[n..]);
        Returned([c] + rest)
  }

  lemma DecodeOneOfEncodeOne(c: CodePoint, rest: seq<Byte>)
    requires IsScalar(c)
    ensures DecodeOne(EncodeOne(c) + rest) == Some((c, |EncodeOne(c)|))
  {
    var b := EncodeOne(c) + rest;
    if c < 0x80 {
      assert b[0] == c;
    } else if c < 0x800 {
      assert b[0] == 0xC0 + c / 64 && b[1] == 0x80 + c % 64;
    } else if c < 0x10000 {
      assert b[0] == 0xE0 + c / 4096 && b[1] == 0x80 + c / 64 % 64 && b[2] == 0x80 + c % 64;
      Digits(c);
    } else {
      assert b[0] == 0xF0 + c / 262144 && b[1] == 0x80 + c / 4096 % 64;
      assert b[2] == 0x80 + c / 64 % 64 && b[3] == 0x80 + c % 64;
      Digits(c);
    }
  }

  lemma Digits(c: CodePoint)
    ensures c == c / 4096 * 4096 + c / 64 % 64 * 64 + c % 64
    ensures c == c / 262144 * 262144 + c / 4096 % 64 * 4096 + c / 64 % 64 * 64 + c % 64
  {
    assert c / 64 / 64 == c / 4096 && c / 4096 / 64 == c / 262144;
  }

  lemma Split2(a: int, t: int)
    requires 0 <= t < 64
    ensures (a * 64 + t) / 64 == a && (a * 64 + t) % 64 == t
  {
  }

  lemma Split3(a: int, t: int, u: int)
    requires 0 <= t < 64 && 0 <= u < 64
    ensures var c := a * 4096 + t * 64 + u; c / 4096 == a && c / 64 % 64 == t && c % 64 == u
  {
    Split2(a * 64 + t, u);
    Split2(a, t);
  }

  lemma Split4(a: int, t: int, u: int, v: int)
    requires 0 <= t < 64 && 0 <= u < 64 && 0 <= v < 64
    ensures var c := a * 262144 + t * 4096 + u * 64 + v;
            c / 262144 == a && c / 4096 % 64 == t && c / 64 % 64 == u && c % 64 == v
  {
    var c := a * 262144 + t * 4096 + u * 64 + v;
    Split2(a * 4096 + t * 64 + u, v);
    Split3(a, t, u);
    assert c == (a * 4096 + t * 64 + u) * 64 + v;
    assert c / 64 == a * 4096 + t * 64 + u;
    assert c / 4096 == a * 64 + t;
    Split2(a, t);
  }

  /** Only the octets of one scalar value are accepted. */
  lemma EncodeOneOfDecodeOne(b: seq<Byte>)
    requires DecodeOne(b).Some?
    ensures IsScalar(DecodeOne(b).value.0)
    ensures EncodeOne(DecodeOne(b).value.0) == b[..DecodeOne(b).value.1]
  {
    var (c, n) := DecodeOne(b).value;
    if n == 2 {
      Split2(Payload(b[0], 0xC0), Payload(b[1], 0x80));
    } else if n == 3 {
      Split3(Payload(b[0], 0xE0), Payload(b[1], 0x80), Payload(b[2], 0x80));
    } else if n == 4 {
      Split4(Payload(b[0], 0xF0), Payload(b[1], 0x80), Payload(b[2], 0x80), Payload(b[3], 0x80));
    }
  }

  /** Decoding undoes encoding on every string of scalar values. */
  lemma {:induction false} DecodeOfEncode(s: PyString)
    requires IsScalarString(s)
    ensures Encode(s).Returned?
    ensures Decode(Encode(s).value) == Returned(s)
  {
    if s != [] {
      DecodeOfEncode(s[1..]);
      var rest := Encode(s[1..]).value;
      DecodeOneOfEncodeOne(s[0], rest);
      var b := EncodeOne(s[0]) + rest;
      assert b[|EncodeOne(s[0])|..] == rest;
      assert [s[0]] + s[1..] == s;
    }
  }

  /** The strings that encode are exactly those without surrogates. */
  lemma {:induction false} EncodesIffScalar(s: PyString)
    ensures Encode(s).Returned? <==> IsScalarString(s)
    ensures Encode(s).Raised? ==> Encode(s).exc == UnicodeError
  {
    if s != [] {
      EncodesIffScalar(s[1..]);
      assert IsScalarString(s) <==> IsScalar(s[0]) && IsScalarString(s[1..]) by {
        if IsScalar(s[0]) && IsScalarString(s[1..]) {
          forall i | 0 <= i < |s| ensures IsScalar(s[i]) {
            if i > 0 { assert s[i] == s[1..][i - 1]; }
          }
        }
      }
    }
  }

  /** A byte string is accepted exactly when it is the encoding of the string it decodes to. */
  lemma {:induction false} EncodeOfDecode(b: seq<Byte>)
    requires Decode(b).Returned?
    ensures Encode(Decode(b).value) == Returned(b)
  {
    if b != [] {
      EncodeOneOfDecodeOne(b);
      var (c, n) := DecodeOne(b).value;
      EncodeOfDecode(b[n..]);
      var s := Decode(b).value;
      assert s[0] == c && s[1..] == Decode(b[n..]).value;
      assert Encode(s) == Returned(EncodeOne(c) + b[n..]);
      assert b[..n] + b[n..] == b;
    }
  }

  /** The lead octet tells the number of octets, and all others are between 80 and BF. */
  lemma Octets(c: CodePoint)
    ensures var b := EncodeOne(c);
            && (c < 0x80 ==> |b| == 1 && b[0] == c)
            && (0x80 <= c < 0x800 ==> |b| == 2 && 0xC2 <= b[0] <= 0xDF)
            && (0x800 <= c < 0x10000 ==> |b| == 3 && 0xE0 <= b[0] <= 0xEF)
            && (0x10000 <= c ==> |b| == 4 && 0xF0 <= b[0] <= 0xF4)
            && forall i :: 1 <= i < |b| ==> 0x80 <= b[i] <= 0xBF
  {
  }

  /** The octets are ordered before, by the first in which they differ. */
  predicate Precedes(a: seq<Byte>, b: seq<Byte>) {
    exists i :: 0 <= i < |a| && i < |b| && a[i] < b[i] && forall j :: 0 <= j < i ==> a[j] == b[j]
  }

  /** The order of octet sequences is that of the characters. */
  lemma OrderPreserved(c: CodePoint, d: CodePoint)
    requires c < d
    ensures Precedes(EncodeOne(c), EncodeOne(d))
  {
    var a, b := EncodeOne(c), EncodeOne(d);
    Octets(c);
    Octets(d);
    if |a| < |b| {
      assert a[0] < b[0];
    } else {
      Digits(c);
      Digits(d);
      if |a| == 1 { assert a[0] < b[0]; }
      else if |a| == 2 { assert a[0] < b[0] || (a[0] == b[0] && a[1] < b[1]); }
      else if |a| == 3 { SameLength3(c, d); }
      else { SameLength4(c, d); }
    }
  }

  lemma SameLength3(c: CodePoint, d: CodePoint)
    requires 0x800 <= c < d < 0x10000
    ensures Precedes(EncodeOne(c), EncodeOne(d))
  {
    var a, b := EncodeOne(c), EncodeOne(d);
    Digits(c);
    Digits(d);
    assert a[0] < b[0] || (a[0] == b[0] && a[1] < b[1]) || (a[0] == b[0] && a[1] == b[1] && a[2] < b[2]);
  }

  lemma SameLength4(c: CodePoint, d: CodePoint)
    requires 0x10000 <= c < d
    ensures Precedes(EncodeOne(c), EncodeOne(d))
  {
    var a, b := EncodeOne(c), EncodeOne(d);
    Digits(c);
    Digits(d);
    assert || a[0] < b[0] || (a[0] == b[0] && a[1] < b[1]) || (a[0] == b[0] && a[1] == b[1] && a[2] < b[2])
           || (a[0] == b[0] && a[1] == b[1] && a[2] == b[2] && a[3] < b[3]);
  }

  /** Characters of the examples in section 7 of RFC 3629. */
  lemma Examples()
    ensures EncodeOne(0x41) == [0x41] && EncodeOne(0x391) == [0xCE, 0x91]
    ensures EncodeOne(0x2262) == [0xE2, 0x89, 0xA2] && EncodeOne(0x233B4) == [0xF0, 0xA3, 0x8E, 0xB4]
  {
  }

  /** One to four octets a character. */
  lemma {:induction false} EncodedLength(s: PyString)
    requires IsScalarString(s)
    ensures Encode(s).Returned? && |s| <= |Encode(s).value| <= 4 * |s|
  {
    if s != [] {
      EncodedLength(s[1..]);
    }
  }
}
