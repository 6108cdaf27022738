/**
  UTF-8 as RFC 3629 (sections 3 and 4) defines it, over Unicode scalar values - which is what
  a Dafny `char` is - with a strict decoder and one that puts U+FFFD for every ill-formed byte.
 */
module Utf8 {
  import opened Common

  const REPLACEMENT: char := '\U{FFFD}'

  predicate Continuation(b: byte) {
    0x80 <= b < 0xC0
  }

  function EncodeChar(c: char): (r: seq<byte>)
    ensures 1 <= |r| <= 4
    ensures !Continuation(r[0]) && (forall k | 0 < k < |r| :: Continuation(r[k]))
    ensures |r| == 1 <==> c as int < 0x80
  {
    var n := c as int;
    if n < 0x80 then [n]
    else if n < 0x800 then [0xC0 + n / 64, 0x80 + n % 64]
    else if n < 0x10000 then [0xE0 + n / 4096, 0x80 + n / 64 % 64, 0x80 + n % 64]
    else [0xF0 + n / 262144, 0x80 + n / 4096 % 64, 0x80 + n / 64 % 64, 0x80 + n % 64]
  }

  function Encode(text: string): seq<byte> {
    if text == "" then [] else EncodeChar(text[0]) + Encode(text[1..])
  }

  /** `n` followed by the six bits of a continuation byte. */
  function Six(n: int, b: byte): int {
    n * 64 + (b as int - 0x80)
  }

  /** A decoded character and how many bytes it took. */
  datatype Decoded = Decoded(c: char, size: nat)

  /** The well-formed sequence at the front of `s`: no overlong form, no surrogate, nothing above U+10FFFF. */
  function DecodeFirst(s: seq<byte>): (r: Option<Decoded>)
    ensures r.Some? ==> 1 <= r.value.size <= |s|
  {
    if s == [] then None
    else if s[0] < 0x80 then Some(Decoded(s[0] as char, 1))
    else if 0xC0 <= s[0] < 0xE0 && |s| >= 2 && Continuation(s[1]) then
      var n := Six(s[0] as int - 0xC0, s[1]);
      if n < 0x80 then None else Some(Decoded(n as char, 2))
    else if 0xE0 <= s[0] < 0xF0 && |s| >= 3 && Continuation(s[1]) && Continuation(s[2]) then
      var n := Six(Six(s[0] as int - 0xE0, s[1]), s[2]);
      if n < 0x800 || 0xD800 <= n < 0xE000 then None else Some(Decoded(n as char, 3))
    else if 0xF0 <= s[0] < 0xF8 && |s| >= 4 && Continuation(s[1]) && Continuation(s[2]) && Continuation(s[3]) then
      var n := Six(Six(Six(s[0] as int - 0xF0, s[1]), s[2]), s[3]);
      if n < 0x10000 || 0x110000 <= n then None else Some(Decoded(n as char, 4))
    else None
  }

  /** Strict decoding: the whole input must be well-formed. */
  function Decode(s: seq<byte>): Option<string> {
    if s == [] then Some("")
    else
      match DecodeFirst(s)
      case None => None
      case Some(d) =>
        match Decode(s[d.size..])
        case None => None
        case Some(rest) => Some([d.c] + rest)
  }

  /** Decoding that never fails. */
  function DecodeLossy(s: seq<byte>): string {
    if s == [] then ""
    else
      match DecodeFirst(s)
      case None => [REPLACEMENT] + DecodeLossy(s[1..])
      case Some(d) => [d.c] + DecodeLossy(s[d.size..])
  }

  // ---- Encoding and decoding are inverse ----

  lemma SixDivides(n: int, b: byte)
    requires Continuation(b)
    ensures Six(n, b) / 64 == n && Six(n, b) % 64 == b as int - 0x80
  {
  }

  lemma Digits64(n: nat)
    ensures n == n / 64 * 64 + n % 64
    ensures n / 64 == n / 4096 * 64 + n / 64 % 64
    ensures n / 4096 == n / 262144 * 64 + n / 4096 % 64
  {
    assert n / 64 / 64 == n / 4096;
    assert n / 4096 / 64 == n / 262144;
  }

  lemma DecodeFirstOfEncode(c: char, rest: seq<byte>)
    ensures DecodeFirst(EncodeChar(c) + rest) == Some(Decoded(c, |EncodeChar(c)|))
  {
    Digits64(c as int);
  }

  lemma EncodeOfDecodeFirst(s: seq<byte>)
    requires DecodeFirst(s).Some?
    ensures var d := DecodeFirst(s).value; EncodeChar(d.c) == s[..d.size]
  {
    var d := DecodeFirst(s).value;
    var n := d.c as int;
    assert n / 64 / 64 == n / 4096 && n / 4096 / 64 == n / 262144;
    if d.size == 2 {
      SixDivides(s[0] as int - 0xC0, s[1]);
    } else if d.size == 3 {
      SixDivides(s[0] as int - 0xE0, s[1]);
      SixDivides(Six(s[0] as int - 0xE0, s[1]), s[2]);
    } else if d.size == 4 {
      SixDivides(s[0] as int - 0xF0, s[1]);
      SixDivides(Six(s[0] as int - 0xF0, s[1]), s[2]);
      SixDivides(Six(Six(s[0] as int - 0xF0, s[1]), s[2]), s[3]);
    }
  }

  lemma {:induction false} DecodeOfEncode(text: string)
    ensures Decode(Encode(text)) == Some(text)
    ensures DecodeLossy(Encode(text)) == text
  {
    if text == "" {
    } else {
      var front, rest := EncodeChar(text[0]), Encode(text[1..]);
      DecodeFirstOfEncode(text[0], rest);
      assert (front + rest)[|front|..] == rest;
      DecodeOfEncode(text[1..]);
      assert text == [text[0]] + text[1..];
    }
  }

  lemma EncodeCons(c: char, rest: string)
    ensures Encode([c] + rest) == EncodeChar(c) + Encode(rest)
  {
    assert ([c] + rest)[1..] == rest;
  }

  lemma {:induction false} EncodeOfDecode(s: seq<byte>)
    requires Decode(s).Some?
    ensures Encode(Decode(s).value) == s
    decreases |s|
  {
    hide DecodeFirst, EncodeChar;
    if s == [] {
    } else {
      var d := DecodeFirst(s).value;
      var rest := Decode(s[d.size..]).value;
      EncodeOfDecodeFirst(s);
      EncodeOfDecode(s[d.size..]);
      EncodeCons(d.c, rest);
      assert s == s[..d.size] + s[d.size..];
    }
  }

  lemma {:induction false} EncodeConcat(a: string, b: string)
    ensures Encode(a + b) == Encode(a) + Encode(b)
  {
    if a == "" {
      assert a + b == b;
    } else {
      assert (a + b)[1..] == a[1..] + b;
      EncodeConcat(a[1..], b);
    }
  }

  // ---- ASCII ----

  predicate Ascii(text: string) {
    forall i | 0 <= i < |text| :: text[i] as int < 0x80
  }

  /** The bytes of a text are as many as its characters exactly when it is ASCII. */
  lemma {:induction false} EncodedLength(text: string)
    ensures |Encode(text)| >= |text|
    ensures |Encode(text)| == |text| <==> Ascii(text)
  {
    if text == "" {
    } else {
      EncodedLength(text[1..]);
      assert Ascii(text) <==> text[0] as int < 0x80 && Ascii(text[1..]);
    }
  }

  lemma {:induction false} AsciiHasLeads(text: string, k: nat)
    requires Ascii(text) && k < |Encode(text)|
    ensures !Continuation(Encode(text)[k])
  {
    if k == 0 {
    } else {
      assert Ascii(text[1..]);
      AsciiHasLeads(text[1..], k - 1);
    }
  }

  // ---- Counting characters without decoding ----

  /** Bytes that begin a character. */
  function Leads(s: seq<byte>): nat {
    if s == [] then 0 else (if Continuation(s[0]) then 0 else 1) + Leads(s[1..])
  }

  lemma {:induction false} LeadsConcat(a: seq<byte>, b: seq<byte>)
    ensures Leads(a + b) == Leads(a) + Leads(b)
  {
    if a == [] {
      assert a + b == b;
    } else {
      assert (a + b)[1..] == a[1..] + b;
      LeadsConcat(a[1..], b);
    }
  }

  lemma {:induction false} NoLeads(s: seq<byte>)
    requires forall k | 0 <= k < |s| :: Continuation(s[k])
    ensures Leads(s) == 0
  {
    if s == [] {
    } else {
      NoLeads(s[1..]);
    }
  }

  lemma LeadsOfChar(c: char)
    ensures Leads(EncodeChar(c)) == 1
  {
    NoLeads(EncodeChar(c)[1..]);
  }

  lemma {:induction false} LeadsOfEncode(text: string)
    ensures Leads(Encode(text)) == |text|
  {
    if text == "" {
    } else {
      LeadsOfChar(text[0]);
      LeadsConcat(EncodeChar(text[0]), Encode(text[1..]));
      LeadsOfEncode(text[1..]);
    }
  }

  /** Lossy decoding yields a character for each lead byte, and one more if it starts amid a character. */
  lemma {:induction false} LossyLength(s: seq<byte>)
    ensures |DecodeLossy(s)| >= Leads(s) + if s != [] && Continuation(s[0]) then 1 else 0
    decreases |s|
  {
    if s == [] {
    } else {
      match DecodeFirst(s)
      case None =>
        LossyLength(s[1..]);
      case Some(d) =>
        EncodeOfDecodeFirst(s);
        LeadsOfChar(d.c);
        LeadsConcat(s[..d.size], s[d.size..]);
        assert s == s[..d.size] + s[d.size..];
        assert s[0] == s[..d.size][0];
        LossyLength(s[d.size..]);
    }
  }

  lemma NotInside(c: char, rest: seq<byte>, k: nat)
    requires 0 < k <= |EncodeChar(c) + rest|
    requires k < |EncodeChar(c) + rest| ==> !Continuation((EncodeChar(c) + rest)[k])
    ensures k >= |EncodeChar(c)|
  {
  }

  lemma SplitBehind(front: seq<byte>, rest: seq<byte>, j: nat)
    requires j <= |rest|
    ensures (front + rest)[..|front| + j] == front + rest[..j]
    ensures (front + rest)[|front| + j..] == rest[j..]
  {
  }

  /** Cutting an encoded text in front of a lead byte cuts it between two characters. */
  lemma {:induction false} CutAtLead(text: string, k: nat) returns (i: nat)
    requires k <= |Encode(text)| && (k < |Encode(text)| ==> !Continuation(Encode(text)[k]))
    ensures i <= |text| && Encode(text)[..k] == Encode(text[..i]) && Encode(text)[k..] == Encode(text[i..])
  {
    hide Encode, EncodeChar, Continuation;
    if k == 0 {
      i := 0;
      EncodeNothing();
      assert text[..0] == "" && text[0..] == text;
    } else {
      NonEmptyText(text);
      var front, rest := EncodeChar(text[0]), Encode(text[1..]);
      EncodeCons(text[0], text[1..]);
      assert text == [text[0]] + text[1..];
      NotInside(text[0], rest, k);
      SplitBehind(front, rest, k - |front|);
      assert k < |Encode(text)| ==> Encode(text)[k] == rest[k - |front|];
      var j := CutAtLead(text[1..], k - |front|);
      i := j + 1;
      assert text[..i] == [text[0]] + text[1..][..j] && text[i..] == text[1..][j..];
      EncodeCons(text[0], text[1..][..j]);
    }
  }

  lemma EncodeNothing()
    ensures Encode("") == []
  {
  }

  lemma NonEmptyText(text: string)
    ensures Encode(text) != [] ==> text != ""
  {
  }

  /** One character of each length; the 3-byte one and the pattern are from RFC 3629. */
  lemma Examples()
    ensures EncodeChar('A') == [0x41] && EncodeChar('\U{00E9}') == [0xC3, 0xA9]
    ensures EncodeChar('\U{2262}') == [0xE2, 0x89, 0xA2] && EncodeChar('\U{233B4}') == [0xF0, 0xA3, 0x8E, 0xB4]
  {
  }
}
