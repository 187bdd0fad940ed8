/** The decoder's idea of well-formed text, against the encoding of RFC 3629 (section 3). */
module Utf8 {
  import opened Bytes
  import opened TarFields

  /** A Unicode scalar value: any code point that is not a surrogate. */
  predicate IsScalar(cp: nat) {
    cp < 0xD800 || 0xE000 <= cp < 0x11_0000
  }

  function Tail(cp: nat): Byte {
    0x80 + cp % 64
  }

  function Encode(cp: nat): Buffer
    requires IsScalar(cp)
  {
    if cp < 0x80 then [cp]
    else if cp < 0x800 then [0xC0 + cp / 64, Tail(cp)]
    else if cp < 0x1_0000 then [0xE0 + cp / 4096, Tail(cp / 64), Tail(cp)]
    else [0xF0 + cp / 262144, Tail(cp / 4096), Tail(cp / 64), Tail(cp)]
  }

  predicate AllScalars(text: seq<nat>) {
    forall i | 0 <= i < |text| :: IsScalar(text[i])
  }

  function EncodeAll(text: seq<nat>): Buffer
    requires AllScalars(text)
  {
    if text == [] then []
    else
      assert IsScalar(text[0]) && forall i | 0 <= i < |text| - 1 :: text[1..][i] == text[i + 1];
      Encode(text[0]) + EncodeAll(text[1..])
  }

  /** An encoded scalar is seen at the front of whatever follows it. */
  lemma EncodingIsSeen(cp: nat, rest: Buffer)
    requires IsScalar(cp)
    ensures var s := Encode(cp) + rest; LeadLength(s) == |Encode(cp)| && s[LeadLength(s)..] == rest
  {
    var s, e := Encode(cp) + rest, Encode(cp);
    assert forall i | 0 <= i < |e| :: s[i] == e[i];
  }

  lemma EncodingIsNotEmpty(cp: nat)
    requires IsScalar(cp)
    ensures 0 < |Encode(cp)|
  {
  }

  lemma TwoParts(a: nat, b: nat)
    requires b < 64
    ensures var cp := a * 64 + b; cp / 64 == a && cp % 64 == b
  {
  }

  lemma ThreeParts(a: nat, b: nat, c: nat)
    requires b < 64 && c < 64
    ensures var cp := a * 4096 + b * 64 + c;
            cp / 4096 == a && cp / 64 == a * 64 + b && cp / 64 % 64 == b && cp % 64 == c
  {
    TwoParts(a * 64 + b, c);
    TwoParts(a, b);
  }

  lemma FourParts(a: nat, b: nat, c: nat, d: nat)
    requires b < 64 && c < 64 && d < 64
    ensures var cp := a * 262144 + b * 4096 + c * 64 + d;
            cp / 262144 == a && cp / 4096 % 64 == b && cp / 64 % 64 == c && cp % 64 == d
  {
    TwoParts((a * 64 + b) * 64 + c, d);
    TwoParts(a * 64 + b, c);
    TwoParts(a, b);
  }

  /** The scalar at the front, by the number of bytes it takes. */
  function Decode(s: Buffer): nat
    requires s != [] && LeadLength(s) > 0
  {
    match LeadLength(s)
    case 1 => s[0]
    case 2 => (s[0] as int - 0xC0) * 64 + (s[1] as int - 0x80)
    case 3 => (s[0] as int - 0xE0) * 4096 + (s[1] as int - 0x80) * 64 + (s[2] as int - 0x80)
    case _ =>
      (s[0] as int - 0xF0) * 262144 + (s[1] as int - 0x80) * 4096 + (s[2] as int - 0x80) * 64 + (s[3] as int - 0x80)
  }

  /** Where a sequence is seen there is one scalar it encodes. */
  lemma SeenIsEncoding(s: Buffer)
    requires s != [] && LeadLength(s) > 0
    ensures LeadLength(s) <= |s| && IsScalar(Decode(s)) && Encode(Decode(s)) == s[..LeadLength(s)]
  {
    var n := LeadLength(s);
    if n == 2 {
      TwoParts(s[0] as int - 0xC0, s[1] as int - 0x80);
    } else if n == 3 {
      ThreeParts(s[0] as int - 0xE0, s[1] as int - 0x80, s[2] as int - 0x80);
    } else if n == 4 {
      FourParts(s[0] as int - 0xF0, s[1] as int - 0x80, s[2] as int - 0x80, s[3] as int - 0x80);
    }
  }

  lemma {:induction false} EncodedIsWellFormed(text: seq<nat>)
    requires AllScalars(text)
    ensures WellFormedUtf8(EncodeAll(text))
    decreases |text|
  {
    hide LeadLength, Encode;
    if text != [] {
      EncodingIsNotEmpty(text[0]);
      EncodingIsSeen(text[0], EncodeAll(text[1..]));
      EncodedIsWellFormed(text[1..]);
    }
  }

  lemma {:induction false} WellFormedIsEncoded(s: Buffer) returns (text: seq<nat>)
    requires WellFormedUtf8(s)
    ensures AllScalars(text) && EncodeAll(text) == s
    decreases |s|
  {
    text := [];
    hide LeadLength, Encode, Decode;
    if s != [] {
      SeenIsEncoding(s);
      var n := LeadLength(s);
      var rest := WellFormedIsEncoded(s[n..]);
      text := [Decode(s)] + rest;
      assert text[1..] == rest && s == s[..n] + s[n..];
    }
  }

  /** Text is well formed exactly when it encodes scalar values, each in its one shortest form. */
  lemma WellFormedIsUtf8(s: Buffer)
    ensures WellFormedUtf8(s) <==> exists text :: AllScalars(text) && EncodeAll(text) == s
  {
    if WellFormedUtf8(s) {
      var text := WellFormedIsEncoded(s);
    }
    if text :| AllScalars(text) && EncodeAll(text) == s {
      EncodedIsWellFormed(text);
    }
  }
}
