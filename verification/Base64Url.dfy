/** The base64url helpers of web/src/lib/webauthn.ts over the base64 of RFC 4648. */
module Base64Url {
  import opened Options

  type byte = x: int | 0 <= x < 256
  type sextet = x: int | 0 <= x < 64

  /* ---------------------------------------------------------------- btoa and atob */

  /** The alphabet of section 4 of RFC 4648. */
  function StdChar(v: sextet): char {
    if v < 26 then (v + 65) as char
    else if v < 52 then (v + 71) as char
    else if v < 62 then (v - 4) as char
    else if v == 62 then '+'
    else '/'
  }

  function StdValue(c: char): (v: Option<sextet>)
  {
    if 'A' <= c <= 'Z' then Some(c as int - 65)
    else if 'a' <= c <= 'z' then Some(c as int - 71)
    else if '0' <= c <= '9' then Some(c as int + 4)
    else if c == '+' then Some(62)
    else if c == '/' then Some(63)
    else None
  }

  /** btoa: every three bytes become four characters, and a short last group is padded with '='. */
  function Btoa(x: seq<byte>): string {
    if |x| == 0 then ""
    else if |x| == 1 then [StdChar(x[0] / 4), StdChar(x[0] % 4 * 16), '=', '=']
    else if |x| == 2 then
      [StdChar(x[0] / 4), StdChar(x[0] % 4 * 16 + x[1] / 16), StdChar(x[1] % 16 * 4), '=']
    else
      [StdChar(x[0] / 4), StdChar(x[0] % 4 * 16 + x[1] / 16),
       StdChar(x[1] % 16 * 4 + x[2] / 64), StdChar(x[2] % 64)] + Btoa(x[3..])
  }

  predicate IsAsciiSpace(c: char) {
    c == ' ' || c == '\t' || c == '\n' || c == '\U{000C}' || c == '\r'
  }

  function DropSpaces(s: string): string {
    if s == "" then "" else (if IsAsciiSpace(s[0]) then "" else [s[0]]) + DropSpaces(s[1..])
  }

  /** At most two '=' come off a text whose length is a multiple of four. */
  function DropPadding(s: string): string {
    if |s| % 4 != 0 || s == "" || s[|s| - 1] != '=' then s
    else if |s| >= 2 && s[|s| - 2] == '=' then s[..|s| - 2]
    else s[..|s| - 1]
  }

  function Values(s: string): Option<seq<sextet>> {
    if forall i :: 0 <= i < |s| ==> StdValue(s[i]) != None then
      Some(seq(|s|, i requires 0 <= i < |s| && StdValue(s[i]) != None => StdValue(s[i]).value))
    else None
  }

  /** The three bytes that four values spell. */
  function Byte0(a: int, b: int): int { a * 4 + b / 16 }

  function Byte1(b: int, c: int): int { b % 16 * 16 + c / 4 }

  function Byte2(c: int, d: int): int { c % 4 * 64 + d }

  /** Four values give three bytes; the leftover bits of a short last group are dropped. */
  function Bytes(vs: seq<sextet>): seq<byte> {
    if |vs| < 2 then []
    else if |vs| == 2 then [Byte0(vs[0], vs[1])]
    else if |vs| == 3 then [Byte0(vs[0], vs[1]), Byte1(vs[1], vs[2])]
    else [Byte0(vs[0], vs[1]), Byte1(vs[1], vs[2]), Byte2(vs[2], vs[3])] + Bytes(vs[4..])
  }

  /** atob, the browsers' forgiving decoder; None where it throws. */
  function Atob(s: string): Option<seq<byte>> {
    var t := DropPadding(DropSpaces(s));
    if |t| % 4 == 1 then None
    else
      match Values(t)
      case Some(vs) => Some(Bytes(vs))
      case None => None
  }

  /* ---------------------------------------------------------------- the two helpers */

  function ReplaceChar(s: string, old': char, new': char): string {
    seq(|s|, i requires 0 <= i < |s| => if s[i] == old' then new' else s[i])
  }

  function StripTrailing(s: string, c: char): string {
    if s != "" && s[|s| - 1] == c then StripTrailing(s[..|s| - 1], c) else s
  }

  function Repeat(c: char, n: nat): string {
    seq(n, _ => c)
  }

  function Encode(x: seq<byte>): string {
    StripTrailing(ReplaceChar(ReplaceChar(Btoa(x), '+', '-'), '/', '_'), '=')
  }

  function Padded(s: string): string {
    var norm := ReplaceChar(ReplaceChar(s, '-', '+'), '_', '/');
    norm + Repeat('=', (4 - |norm| % 4) % 4)
  }

  function Decode(s: string): Option<seq<byte>> {
    Atob(Padded(s))
  }

  /** The binary string that carries bytes as characters. */
  function BinaryString(x: seq<byte>): string {
    seq(|x|, i requires 0 <= i < |x| => x[i] as char)
  }

  /** btoa reads its argument as a binary string. */
  function BtoaText(s: string): string
    requires forall i :: 0 <= i < |s| ==> s[i] < 256 as char
  {
    Btoa(seq(|s|, i requires 0 <= i < |s| => s[i] as int))
  }

  method B64uEncode(bytes: array<byte>) returns (r: string)
    ensures r == Encode(bytes[..])
  {
    var s := "";
    for i := 0 to bytes.Length
      invariant s == BinaryString(bytes[..i])
    {
      s := s + [bytes[i] as char];
      assert bytes[..i + 1] == bytes[..i] + [bytes[i]];
    }
    ghost var x := bytes[..];
    assert bytes[..bytes.Length] == x;
    assert seq(|s|, i requires 0 <= i < |s| => s[i] as int) == x;
    r := StripTrailing(ReplaceChar(ReplaceChar(BtoaText(s), '+', '-'), '/', '_'), '=');
  }

  method B64uDecode(s: string) returns (thrown: bool, out: array<byte>)
    ensures thrown <==> Decode(s) == None
    ensures !thrown ==> Decode(s) == Some(out[..])
  {
    var norm := ReplaceChar(ReplaceChar(s, '-', '+'), '_', '/');
    var padded := norm + Repeat('=', (4 - |norm| % 4) % 4);
    var decoded := Atob(padded);
    if decoded == None {
      return true, new byte[0];
    }
    var raw := BinaryString(decoded.value);
    out := new byte[|raw|];
    for i := 0 to |raw|
      invariant out[..i] == decoded.value[..i]
    {
      out[i] := raw[i] as int;
    }
    assert out[..] == out[..|raw|] && decoded.value[..|raw|] == decoded.value;
    thrown := false;
  }

  /* ---------------------------------------------------------------- round trip */

  /** The six-bit groups of a byte sequence, without padding. */
  function Sextets(x: seq<byte>): seq<sextet> {
    if |x| == 0 then []
    else if |x| == 1 then [x[0] / 4, x[0] % 4 * 16]
    else if |x| == 2 then [x[0] / 4, x[0] % 4 * 16 + x[1] / 16, x[1] % 16 * 4]
    else [x[0] / 4, x[0] % 4 * 16 + x[1] / 16, x[1] % 16 * 4 + x[2] / 64, x[2] % 64] + Sextets(x[3..])
  }

  /** The characters of a list of values, with the given characters for 62 and 63. */
  function Spell(vs: seq<sextet>, c62: char, c63: char): string {
    seq(|vs|, i requires 0 <= i < |vs| => SpellChar(vs[i], c62, c63))
  }

  function SpellChar(v: sextet, c62: char, c63: char): char {
    if v == 62 then c62 else if v == 63 then c63 else StdChar(v)
  }

  /** How many '=' complete the last group of n characters. */
  function PadLength(n: nat): nat {
    if n % 4 == 0 then 0 else 4 - n % 4
  }

  lemma PadLengthFacts(n: nat)
    ensures PadLength(n) == (4 - n % 4) % 4 && PadLength(n + 4) == PadLength(n)
    ensures n % 4 != 1 ==> PadLength(n) <= 2
  {
  }

  lemma SextetsStep(a: byte, b: byte, c: byte, rest: seq<byte>)
    ensures Sextets([a, b, c] + rest) ==
            [a / 4, a % 4 * 16 + b / 16, b % 16 * 4 + c / 64, c % 64] + Sextets(rest)
  {
  }

  lemma {:induction false} SextetsLength(x: seq<byte>)
    ensures |Sextets(x)| % 4 != 1
    ensures PadLength(|Sextets(x)|) <= 2
    ensures |Sextets(x)| % 4 == 0 <==> |x| % 3 == 0
  {
    if |x| >= 3 {
      SextetsLength(x[3..]);
    }
  }

  lemma {:induction false} BtoaIsPaddedSextets(x: seq<byte>)
    ensures Btoa(x) == Spell(Sextets(x), '+', '/') + Repeat('=', PadLength(|Sextets(x)|))
  {
    if |x| >= 3 {
      BtoaIsPaddedSextets(x[3..]);
      var head, tail := Sextets(x)[..4], Sextets(x[3..]);
      assert Sextets(x) == head + tail;
      assert Spell(head + tail, '+', '/') == Spell(head, '+', '/') + Spell(tail, '+', '/');
      PadLengthFacts(|tail|);
      assert Btoa(x) == Spell(head, '+', '/') + Btoa(x[3..]);
    }
  }

  lemma {:induction false} StripRepeat(s: string, n: nat)
    requires s == "" || s[|s| - 1] != '='
    ensures StripTrailing(s + Repeat('=', n), '=') == s
  {
    if n == 0 {
      assert s + Repeat('=', n) == s;
    } else {
      var t := s + Repeat('=', n);
      assert t[..|t| - 1] == s + Repeat('=', n - 1);
      StripRepeat(s, n - 1);
    }
  }

  /** A spelling character is neither padding nor space. */
  lemma SpellCharPlain(v: sextet, c62: char, c63: char)
    requires c62 in "+-" && c63 in "/_"
    ensures SpellChar(v, c62, c63) != '=' && !IsAsciiSpace(SpellChar(v, c62, c63))
    ensures v < 62 ==> StdChar(v) !in "+-/_"
    ensures StdValue(SpellChar(v, '+', '/')) == Some(v)
  {
  }

  /** Swapping characters respells the same values in the other alphabet. */
  lemma SwapRespells(vs: seq<sextet>)
    ensures ReplaceChar(ReplaceChar(Spell(vs, '+', '/'), '+', '-'), '/', '_') == Spell(vs, '-', '_')
    ensures ReplaceChar(ReplaceChar(Spell(vs, '-', '_'), '-', '+'), '_', '/') == Spell(vs, '+', '/')
  {
  }

  /** What encoding produces: the values in the URL alphabet, without padding. */
  lemma EncodeSpellsSextets(x: seq<byte>)
    ensures Encode(x) == Spell(Sextets(x), '-', '_')
  {
    var vs := Sextets(x);
    var pad := Repeat('=', PadLength(|vs|));
    BtoaIsPaddedSextets(x);
    SwapRespells(vs);
    assert ReplaceChar(ReplaceChar(Btoa(x), '+', '-'), '/', '_') == Spell(vs, '-', '_') + pad;
    if vs != [] {
      SpellCharPlain(vs[|vs| - 1], '-', '_');
    }
    StripRepeat(Spell(vs, '-', '_'), PadLength(|vs|));
  }

  /** Swapping back and padding restores the very text btoa produced. */
  lemma PaddingRestoresBtoa(x: seq<byte>)
    ensures Padded(Encode(x)) == Btoa(x)
  {
    EncodeSpellsSextets(x);
    SwapRespells(Sextets(x));
    BtoaIsPaddedSextets(x);
    PadLengthFacts(|Sextets(x)|);
  }

  lemma {:induction false} DropSpacesKeeps(s: string)
    requires forall c :: c in s ==> !IsAsciiSpace(c)
    ensures DropSpaces(s) == s
  {
    if s != "" {
      DropSpacesKeeps(s[1..]);
    }
  }

  lemma ValuesOfSpell(vs: seq<sextet>)
    ensures Values(Spell(vs, '+', '/')) == Some(vs)
  {
    var text := Spell(vs, '+', '/');
    forall i | 0 <= i < |text| ensures StdValue(text[i]) == Some(vs[i]) {
      SpellCharPlain(vs[i], '+', '/');
    }
    assert Values(text).value == vs;
  }

  /** Division puts a byte together again from its sextets. */
  lemma SextetParts(x: byte, y: byte, z: byte)
    ensures Byte0(x / 4, x % 4 * 16 + y / 16) == x
    ensures Byte1(x % 4 * 16 + y / 16, y % 16 * 4 + z / 64) == y
    ensures Byte2(y % 16 * 4 + z / 64, z % 64) == z
  {
  }

  lemma {:induction false} BytesOfSextets(x: seq<byte>)
    ensures Bytes(Sextets(x)) == x
  {
    if |x| >= 3 {
      var rest := Sextets(x[3..]);
      BytesOfSextets(x[3..]);
      SextetParts(x[0], x[1], x[2]);
      BytesStep(x[0] / 4, x[0] % 4 * 16 + x[1] / 16, x[1] % 16 * 4 + x[2] / 64, x[2] % 64, rest);
      assert x == [x[0], x[1], x[2]] + x[3..];
    } else if |x| == 2 {
      SextetParts(x[0], x[1], 0);
    } else if |x| == 1 {
      SextetParts(x[0], 0, 0);
    }
  }

  lemma DropPaddingOnly(text: string, n: nat)
    requires n == PadLength(|text|) <= 2
    requires text == "" || text[|text| - 1] != '='
    ensures DropPadding(text + Repeat('=', n)) == text
  {
  }

  /** Padding never looks like text, and a whole number of groups is left once it is dropped. */
  lemma AtobOfPadded(vs: seq<sextet>)
    requires |vs| % 4 != 1
    ensures Atob(Spell(vs, '+', '/') + Repeat('=', PadLength(|vs|))) == Some(Bytes(vs))
  {
    var text, n := Spell(vs, '+', '/'), PadLength(|vs|);
    PadLengthFacts(|vs|);
    forall i | 0 <= i < |text| ensures text[i] != '=' && !IsAsciiSpace(text[i]) {
      SpellCharPlain(vs[i], '+', '/');
    }
    var s := text + Repeat('=', n);
    assert forall i :: 0 <= i < |s| ==> !IsAsciiSpace(s[i]);
    DropSpacesKeeps(s);
    DropPaddingOnly(text, n);
    ValuesOfSpell(vs);
  }

  /** Decoding what was encoded gives the bytes back, for every byte sequence. */
  lemma DecodeEncode(x: seq<byte>)
    ensures Decode(Encode(x)) == Some(x)
  {
    PaddingRestoresBtoa(x);
    BtoaIsPaddedSextets(x);
    SextetsLength(x);
    AtobOfPadded(Sextets(x));
    BytesOfSextets(x);
  }

  /* ---------------------------------------------------------------- the other direction */

  function UrlValue(c: char): Option<sextet> {
    if c == '-' then Some(62) else if c == '_' then Some(63)
    else if c == '+' || c == '/' then None else StdValue(c)
  }

  /** Text in the URL alphabet whose length and unused last bits an encoder can produce. */
  predicate Canonical(s: string) {
    && (forall i :: 0 <= i < |s| ==> UrlValue(s[i]) != None)
    && |s| % 4 != 1
    && (|s| % 4 == 2 ==> UrlValue(s[|s| - 1]).value % 16 == 0)
    && (|s| % 4 == 3 ==> UrlValue(s[|s| - 1]).value % 4 == 0)
  }

  function UrlValues(s: string): seq<sextet>
    requires forall i :: 0 <= i < |s| ==> UrlValue(s[i]) != None
  {
    seq(|s|, i requires 0 <= i < |s| => UrlValue(s[i]).value)
  }

  lemma SpellUrlValues(s: string)
    requires forall i :: 0 <= i < |s| ==> UrlValue(s[i]) != None
    ensures Spell(UrlValues(s), '-', '_') == s
  {
  }

  predicate WholeBytes(vs: seq<sextet>) {
    && |vs| % 4 != 1
    && (|vs| % 4 == 2 ==> vs[|vs| - 1] % 16 == 0)
    && (|vs| % 4 == 3 ==> vs[|vs| - 1] % 4 == 0)
  }

  lemma {:induction false} SextetsOfBytes(vs: seq<sextet>)
    requires WholeBytes(vs)
    ensures Sextets(Bytes(vs)) == vs
  {
    if |vs| >= 4 {
      var rest := vs[4..];
      WholeBytesTail(vs);
      SextetsOfBytes(rest);
      SextetsOfThree(vs[0], vs[1], vs[2], vs[3], Bytes(rest));
      assert vs == [vs[0], vs[1], vs[2], vs[3]] + rest;
      BytesStep(vs[0], vs[1], vs[2], vs[3], rest);
    } else if |vs| == 2 {
      SextetsOfOne(vs[0], vs[1]);
      assert vs == [vs[0], vs[1]];
    } else if |vs| == 3 {
      SextetsOfTwo(vs[0], vs[1], vs[2]);
      assert vs == [vs[0], vs[1], vs[2]];
    }
  }

  lemma WholeBytesTail(vs: seq<sextet>)
    requires WholeBytes(vs) && |vs| >= 4
    ensures WholeBytes(vs[4..])
  {
  }

  lemma BytesStep(a: sextet, b: sextet, c: sextet, d: sextet, rest: seq<sextet>)
    ensures Bytes([a, b, c, d] + rest) == [Byte0(a, b), Byte1(b, c), Byte2(c, d)] + Bytes(rest)
  {
  }

  /** Division undoes the packing of one byte. */
  lemma ByteParts(a: sextet, b: sextet, c: sextet, d: sextet)
    ensures Byte0(a, b) / 4 == a && Byte0(a, b) % 4 == b / 16
    ensures Byte1(b, c) / 16 == b % 16 && Byte1(b, c) % 16 == c / 4
    ensures Byte2(c, d) / 64 == c % 4 && Byte2(c, d) % 64 == d
  {
  }

  lemma SextetsOfThree(a: sextet, b: sextet, c: sextet, d: sextet, rest: seq<byte>)
    ensures Sextets([Byte0(a, b), Byte1(b, c), Byte2(c, d)] + rest) == [a, b, c, d] + Sextets(rest)
  {
    var x, y, z := Byte0(a, b), Byte1(b, c), Byte2(c, d);
    ByteParts(a, b, c, d);
    assert x % 4 * 16 + y / 16 == b && y % 16 * 4 + z / 64 == c;
    SextetsStep(x, y, z, rest);
  }

  lemma SextetsOfOne(a: sextet, b: sextet)
    requires b % 16 == 0
    ensures Sextets([Byte0(a, b)]) == [a, b]
  {
    ByteParts(a, b, 0, 0);
  }

  lemma SextetsOfTwo(a: sextet, b: sextet, c: sextet)
    requires c % 4 == 0
    ensures Sextets([Byte0(a, b), Byte1(b, c)]) == [a, b, c]
  {
    var x, y := Byte0(a, b), Byte1(b, c);
    ByteParts(a, b, c, 0);
    assert x % 4 * 16 + y / 16 == b && y % 16 * 4 == c;
  }

  /** The encoder's outputs are exactly the canonical texts, and decoding one and encoding it again
      gives the same text: no two canonical texts stand for the same bytes. */
  lemma EncodeDecodeExactly(s: string)
    ensures (exists x: seq<byte> :: Encode(x) == s) <==> Canonical(s)
    ensures Canonical(s) ==> exists x: seq<byte> :: Decode(s) == Some(x) && Encode(x) == s
  {
    if Canonical(s) {
      var vs := UrlValues(s);
      SpellUrlValues(s);
      assert WholeBytes(vs);
      SextetsOfBytes(vs);
      EncodeSpellsSextets(Bytes(vs));
      DecodeEncode(Bytes(vs));
      assert Encode(Bytes(vs)) == s;
    }
    forall x: seq<byte> | Encode(x) == s ensures Canonical(s) {
      EncodeIsCanonical(x);
    }
  }

  lemma {:induction false} SextetsWhole(x: seq<byte>)
    ensures WholeBytes(Sextets(x))
  {
    SextetsLength(x);
    if |x| >= 3 {
      SextetsWhole(x[3..]);
      assert |x| > 3 ==> Sextets(x)[|Sextets(x)| - 1] == Sextets(x[3..])[|Sextets(x[3..])| - 1];
    } else if |x| == 2 {
      assert Sextets(x)[2] == x[1] % 16 * 4;
    } else if |x| == 1 {
      assert Sextets(x)[1] == x[0] % 4 * 16;
    }
  }

  lemma EncodeIsCanonical(x: seq<byte>)
    ensures Canonical(Encode(x))
  {
    var vs := Sextets(x);
    EncodeSpellsSextets(x);
    SextetsWhole(x);
    forall i | 0 <= i < |vs| ensures UrlValue(Encode(x)[i]) == Some(vs[i]) {
      SpellCharPlain(vs[i], '+', '/');
    }
  }
}
