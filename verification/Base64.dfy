/**
 Standard base64 with padding (section 4 of RFC 4648), as Go's StdEncoding
 does it: the decoder skips line breaks anywhere and ignores the unused low
 bits of the last sextet.
 */
module Base64 {
  import opened Wrappers

  type byte = x: int | 0 <= x < 256
  type sextet = x: int | 0 <= x < 64

  function EncodeSextet(v: sextet): char {
    if v < 26 then (v + 'A' as int) as char
    else if v < 52 then (v - 26 + 'a' as int) as char
    else if v < 62 then (v - 52 + '0' as int) as char
    else if v == 62 then '+'
    else '/'
  }

  function DecodeChar(c: char): Option<sextet> {
    if 'A' <= c <= 'Z' then Some(c as int - 'A' as int)
    else if 'a' <= c <= 'z' then Some(c as int - 'a' as int + 26)
    else if '0' <= c <= '9' then Some(c as int - '0' as int + 52)
    else if c == '+' then Some(62)
    else if c == '/' then Some(63)
    else None
  }

  /** The alphabet of table 1 of RFC 4648: five runs of consecutive characters. */
  lemma AlphabetIs(v: sextet)
    ensures EncodeSextet(0) == 'A' && EncodeSextet(26) == 'a' && EncodeSextet(52) == '0'
    ensures EncodeSextet(62) == '+' && EncodeSextet(63) == '/'
    ensures v < 63 && v != 25 && v != 51 && v != 61 && v != 62 ==> EncodeSextet(v + 1) as int == EncodeSextet(v) as int + 1
  {
  }

  /** The decoder reads exactly that alphabet. */
  lemma DecodeCharIs(c: char, v: sextet)
    ensures DecodeChar(c) == Some(v) <==> c == EncodeSextet(v)
  {
  }

  // Three bytes as four sextets, and back.

  function Sextet0(x: byte): sextet { x as int / 4 }

  function Sextet1(x: byte, y: byte): sextet { x as int % 4 * 16 + y as int / 16 }

  function Sextet2(y: byte, z: byte): sextet { y as int % 16 * 4 + z as int / 64 }

  function Sextet3(z: byte): sextet { z as int % 64 }

  function Byte0(p: sextet, q: sextet): byte { p as int * 4 + q as int / 16 }

  function Byte1(q: sextet, r: sextet): byte { q as int % 16 * 16 + r as int / 4 }

  function Byte2(r: sextet, t: sextet): byte { r as int % 4 * 64 + t as int }

  lemma Regroup(x: byte, y: byte, z: byte)
    ensures Byte0(Sextet0(x), Sextet1(x, y)) == x
    ensures Byte1(Sextet1(x, y), Sextet2(y, z)) == y
    ensures Byte2(Sextet2(y, z), Sextet3(z)) == z
  {
  }

  function Encode(b: seq<byte>): string {
    if b == [] then ""
    else if |b| == 1 then [EncodeSextet(Sextet0(b[0])), EncodeSextet(Sextet1(b[0], 0)), '=', '=']
    else if |b| == 2 then
      [EncodeSextet(Sextet0(b[0])), EncodeSextet(Sextet1(b[0], b[1])), EncodeSextet(Sextet2(b[1], 0)), '=']
    else
      [EncodeSextet(Sextet0(b[0])), EncodeSextet(Sextet1(b[0], b[1])),
       EncodeSextet(Sextet2(b[1], b[2])), EncodeSextet(Sextet3(b[2]))] + Encode(b[3..])
  }

  /** Byte i of the data, as the encoder pads it. */
  function ByteAt(b: seq<byte>, i: nat): byte {
    if i < |b| then b[i] else 0
  }

  /** Three bytes from position 3 * g on as one number of 24 bits. */
  function Group(b: seq<byte>, g: nat): nat {
    ByteAt(b, 3 * g) * 65536 + ByteAt(b, 3 * g + 1) * 256 + ByteAt(b, 3 * g + 2)
  }

  /** Character c of group g: its six bits from the high end, or padding when the data has no bit of them. */
  function CharAt(b: seq<byte>, g: nat, c: nat): char
    requires c < 4
  {
    if 3 * g + c > |b| then '='
    else
      var v := Group(b, g);
      EncodeSextet((if c == 0 then v / 262144 else if c == 1 then v / 4096 else if c == 2 then v / 64 else v) % 64)
  }

  /** The encoding, character by character. */
  lemma {:induction false} EncodeIs(b: seq<byte>, g: nat, c: nat)
    requires 3 * g < |b| && c < 4
    ensures |Encode(b)| == 4 * ((|b| + 2) / 3)
    ensures 4 * g + c < |Encode(b)| && Encode(b)[4 * g + c] == CharAt(b, g, c)
  {
    EncodeLength(b);
    if g == 0 {
      FirstGroup(b, c);
    } else {
      EncodeIs(b[3..], g - 1, c);
      assert Encode(b)[4..] == Encode(b[3..]);
      assert Group(b, g) == Group(b[3..], g - 1);
    }
  }

  lemma {:induction false} EncodeLength(b: seq<byte>)
    ensures |Encode(b)| == 4 * ((|b| + 2) / 3)
  {
    if |b| >= 3 {
      EncodeLength(b[3..]);
      assert (|b| - 3 + 2) / 3 + 1 == (|b| + 2) / 3;
    }
  }

  lemma FirstGroup(b: seq<byte>, c: nat)
    requires b != [] && c < 4
    ensures c < |Encode(b)| && Encode(b)[c] == CharAt(b, 0, c)
  {
    SixBits(ByteAt(b, 0), ByteAt(b, 1), ByteAt(b, 2));
    assert Group(b, 0) == ByteAt(b, 0) * 65536 + ByteAt(b, 1) * 256 + ByteAt(b, 2);
  }

  lemma SixBits(x: byte, y: byte, z: byte)
    ensures var v := x * 65536 + y * 256 + z;
            && Sextet0(x) == v / 262144 % 64 && Sextet1(x, y) == v / 4096 % 64
            && Sextet2(y, z) == v / 64 % 64 && Sextet3(z) == v % 64
  {
    var v := x * 65536 + y * 256 + z;
    var x0, x1, y0, y1, z0, z1 := x / 4, x % 4, y / 16, y % 16, z / 64, z % 64;
    assert v == x0 * 262144 + (x1 * 65536 + y0 * 4096 + y1 * 256 + z0 * 64 + z1);
    HighPart(v, 262144, x0, x1 * 65536 + y0 * 4096 + y1 * 256 + z0 * 64 + z1);
    HighPart(v, 4096, x0 * 64 + x1 * 16 + y0, y1 * 256 + z0 * 64 + z1);
    HighPart(v, 64, x0 * 4096 + x1 * 1024 + y0 * 64 + y1 * 4 + z0, z1);
    HighPart(x0, 64, 0, x0);
    HighPart(x0 * 64 + x1 * 16 + y0, 64, x0, x1 * 16 + y0);
    HighPart(x0 * 4096 + x1 * 1024 + y0 * 64 + y1 * 4 + z0, 64, x0 * 64 + x1 * 16 + y0, y1 * 4 + z0);
  }

  lemma HighPart(v: nat, d: nat, q: nat, r: nat)
    requires v == q * d + r && r < d && (d == 64 || d == 4096 || d == 262144)
    ensures v / d == q && v % d == r
  {
  }

  function SkipBreaks(s: string): string {
    if s == "" then ""
    else if s[0] == '\n' || s[0] == '\r' then SkipBreaks(s[1..])
    else [s[0]] + SkipBreaks(s[1..])
  }

  /** Quantum by quantum; padding may only end the text. */
  function DecodeQuanta(s: string): Option<seq<byte>> {
    if s == "" then Some([])
    else if |s| < 4 then None
    else
      match (DecodeChar(s[0]), DecodeChar(s[1]), DecodeChar(s[2]), DecodeChar(s[3]))
      case (Some(p), Some(q), None, None) =>
        if s[2..] == "==" then Some([Byte0(p, q)]) else None
      case (Some(p), Some(q), Some(r), None) =>
        if s[3..] == "=" then Some([Byte0(p, q), Byte1(q, r)]) else None
      case (Some(p), Some(q), Some(r), Some(t)) =>
        var rest := DecodeQuanta(s[4..]);
        if rest.None? then None
        else Some([Byte0(p, q), Byte1(q, r), Byte2(r, t)] + rest.value)
      case _ => None
  }

  function Decode(s: string): Option<seq<byte>> {
    DecodeQuanta(SkipBreaks(s))
  }

  lemma SextetRoundTrip(v: sextet)
    ensures DecodeChar(EncodeSextet(v)) == Some(v)
    ensures EncodeSextet(v) !in "\r\n="
  {
  }

  lemma {:induction false} QuantaRoundTrip(b: seq<byte>)
    ensures DecodeQuanta(Encode(b)) == Some(b)
  {
    if |b| == 1 {
      OneByte(b[0]);
      assert b == [b[0]];
    } else if |b| == 2 {
      TwoBytes(b[0], b[1]);
      assert b == [b[0], b[1]];
    } else if |b| >= 3 {
      QuantaRoundTrip(b[3..]);
      ThreeBytes(b[0], b[1], b[2], b[3..]);
      assert b == [b[0], b[1], b[2]] + b[3..];
    }
  }

  lemma ThreeBytes(x: byte, y: byte, z: byte, rest: seq<byte>)
    requires DecodeQuanta(Encode(rest)) == Some(rest)
    ensures DecodeQuanta(Encode([x, y, z] + rest)) == Some([x, y, z] + rest)
  {
    var b := [x, y, z] + rest;
    assert b[3..] == rest && b[0] == x && b[1] == y && b[2] == z;
    FullQuantum(Sextet0(x), Sextet1(x, y), Sextet2(y, z), Sextet3(z), Encode(rest));
    Regroup(x, y, z);
  }

  lemma OneByte(x: byte)
    ensures DecodeQuanta(Encode([x])) == Some([x])
  {
    PaddedTwice(Sextet0(x), Sextet1(x, 0));
    Regroup(x, 0, 0);
  }

  lemma TwoBytes(x: byte, y: byte)
    ensures DecodeQuanta(Encode([x, y])) == Some([x, y])
  {
    PaddedOnce(Sextet0(x), Sextet1(x, y), Sextet2(y, 0));
    Regroup(x, y, 0);
  }

  lemma PaddedTwice(p: sextet, q: sextet)
    ensures DecodeQuanta([EncodeSextet(p), EncodeSextet(q), '=', '=']) == Some([Byte0(p, q)])
  {
    SextetRoundTrip(p);
    SextetRoundTrip(q);
    assert [EncodeSextet(p), EncodeSextet(q), '=', '='][2..] == "==";
  }

  lemma PaddedOnce(p: sextet, q: sextet, r: sextet)
    ensures DecodeQuanta([EncodeSextet(p), EncodeSextet(q), EncodeSextet(r), '=']) == Some([Byte0(p, q), Byte1(q, r)])
  {
    SextetRoundTrip(p);
    SextetRoundTrip(q);
    SextetRoundTrip(r);
    assert [EncodeSextet(p), EncodeSextet(q), EncodeSextet(r), '='][3..] == "=";
  }

  lemma FullQuantum(p: sextet, q: sextet, r: sextet, t: sextet, rest: string)
    ensures var s := [EncodeSextet(p), EncodeSextet(q), EncodeSextet(r), EncodeSextet(t)] + rest;
            var d := DecodeQuanta(rest);
            DecodeQuanta(s) == if d.None? then None else Some([Byte0(p, q), Byte1(q, r), Byte2(r, t)] + d.value)
  {
    SextetRoundTrip(p);
    SextetRoundTrip(q);
    SextetRoundTrip(r);
    SextetRoundTrip(t);
    var s := [EncodeSextet(p), EncodeSextet(q), EncodeSextet(r), EncodeSextet(t)] + rest;
    assert s[4..] == rest;
  }

  lemma {:induction false} NoBreaks(s: string)
    requires '\n' !in s && '\r' !in s
    ensures SkipBreaks(s) == s
  {
    if s != "" {
      assert forall c :: c in s[1..] ==> c in s;
      NoBreaks(s[1..]);
    }
  }

  lemma {:induction false} EncodedHasNoBreaks(b: seq<byte>)
    ensures '\n' !in Encode(b) && '\r' !in Encode(b)
  {
    forall v: sextet ensures EncodeSextet(v) !in "\r\n" { SextetRoundTrip(v); }
    if |b| >= 3 {
      EncodedHasNoBreaks(b[3..]);
    }
  }

  /** Decoding an encoded byte string gives it back. */
  lemma RoundTrip(b: seq<byte>)
    ensures Decode(Encode(b)) == Some(b)
  {
    EncodedHasNoBreaks(b);
    NoBreaks(Encode(b));
    QuantaRoundTrip(b);
  }

  // ---- which texts decode -------------------------------------------------------

  /** Line breaks are dropped wherever they stand, and nothing else is. */
  lemma {:induction false} SkipBreaksIs(s: string, t: string)
    ensures SkipBreaks(s + t) == SkipBreaks(s) + SkipBreaks(t)
    ensures |s| == 1 ==> SkipBreaks(s) == if s[0] == '\n' || s[0] == '\r' then "" else s
  {
    if s == "" {
      assert s + t == t;
    } else {
      assert (s + t)[1..] == s[1..] + t;
      SkipBreaksIs(s[1..], t);
      assert |s| == 1 ==> s[1..] == "" && s == [s[0]];
    }
  }

  ghost predicate InAlphabet(c: char) {
    exists v: sextet :: c == EncodeSextet(v)
  }

  /** Whole quanta of the alphabet, the last of which may end in one or two padding characters. */
  ghost predicate WellFormed(t: string) {
    && |t| % 4 == 0
    && (forall i :: 0 <= i < |t| - 2 ==> InAlphabet(t[i]))
    && (t != "" ==> (InAlphabet(t[|t| - 2]) && (InAlphabet(t[|t| - 1]) || t[|t| - 1] == '='))
                    || (t[|t| - 2] == '=' && t[|t| - 1] == '='))
  }

  lemma AlphabetDecodes(c: char)
    ensures DecodeChar(c).Some? <==> InAlphabet(c)
    ensures InAlphabet(c) ==> c != '='
  {
    if DecodeChar(c).Some? {
      DecodeCharIs(c, DecodeChar(c).value);
    }
    if v: sextet :| c == EncodeSextet(v) {
      DecodeCharIs(c, v);
    }
  }

  lemma {:induction false} QuantaDecode(t: string)
    ensures DecodeQuanta(t).Some? <==> WellFormed(t)
  {
    if |t| >= 4 {
      forall i | 0 <= i < 4 ensures DecodeChar(t[i]).Some? <==> InAlphabet(t[i]) { AlphabetDecodes(t[i]); }
      AlphabetDecodes('=');
      if |t| == 4 {
        LastQuantum(t);
      } else {
        QuantaDecode(t[4..]);
        FirstQuantum(t);
      }
    }
  }

  lemma LastQuantum(t: string)
    requires |t| == 4
    requires forall i :: 0 <= i < 4 ==> (DecodeChar(t[i]).Some? <==> InAlphabet(t[i]))
    requires !InAlphabet('=')
    ensures DecodeQuanta(t).Some? <==> WellFormed(t)
  {
    assert t[4..] == "" && t[2..] == [t[2], t[3]] && t[3..] == [t[3]];
    assert DecodeQuanta("") == Some([]);
  }

  lemma FirstQuantum(t: string)
    requires |t| > 4
    requires forall i :: 0 <= i < 4 ==> (DecodeChar(t[i]).Some? <==> InAlphabet(t[i]))
    requires DecodeQuanta(t[4..]).Some? <==> WellFormed(t[4..])
    ensures DecodeQuanta(t).Some? <==> WellFormed(t)
  {
    LongQuantum(t);
    TailWellFormed(t);
  }

  lemma LongQuantum(t: string)
    requires |t| > 4
    ensures DecodeQuanta(t).Some? <==> (forall i :: 0 <= i < 4 ==> DecodeChar(t[i]).Some?) && DecodeQuanta(t[4..]).Some?
  {
    assert |t[2..]| > 2 && |t[3..]| > 1;
    var all := forall i :: 0 <= i < 4 ==> DecodeChar(t[i]).Some?;
    assert all <==> DecodeChar(t[0]).Some? && DecodeChar(t[1]).Some? && DecodeChar(t[2]).Some? && DecodeChar(t[3]).Some?;
  }

  lemma TailWellFormed(t: string)
    requires |t| > 4
    ensures WellFormed(t) <==> (forall i :: 0 <= i < 4 ==> InAlphabet(t[i])) && WellFormed(t[4..])
  {
    var u := t[4..];
    if |t| % 4 == 0 {
      assert |u| >= 4 && u[|u| - 1] == t[|t| - 1] && u[|u| - 2] == t[|t| - 2];
      assert forall i :: 0 <= i < |u| ==> u[i] == t[i + 4];
      if WellFormed(t) {
        forall i | 0 <= i < |u| - 2 ensures InAlphabet(u[i]) { assert InAlphabet(t[i + 4]); }
      }
      if (forall i :: 0 <= i < 4 ==> InAlphabet(t[i])) && WellFormed(u) {
        forall i | 0 <= i < |t| - 2 ensures InAlphabet(t[i]) {
          if i >= 4 { assert InAlphabet(u[i - 4]); }
        }
      }
    }
  }

  /** A text decodes exactly when it is well formed once its line breaks are gone. */
  lemma DecodesIff(s: string)
    ensures Decode(s).Some? <==> WellFormed(SkipBreaks(s))
  {
    QuantaDecode(SkipBreaks(s));
  }
}
