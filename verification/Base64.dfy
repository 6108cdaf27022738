/** Base64 (RFC 4648, section 4) and cutting a string into pieces of one size. */
module Base64 {
  import opened Common

  // ---- The alphabet ----

  function Letter(v: nat): char
    requires v < 64
  {
    if v < 26 then ('A' as int + v) as char
    else if v < 52 then ('a' as int + (v - 26)) as char
    else if v < 62 then ('0' as int + (v - 52)) as char
    else if v == 62 then '+' else '/'
  }

  function Index(c: char): (r: Option<nat>)
    ensures r.Some? ==> r.value < 64
  {
    if 'A' <= c <= 'Z' then Some(c as int - 'A' as int)
    else if 'a' <= c <= 'z' then Some(c as int - 'a' as int + 26)
    else if '0' <= c <= '9' then Some(c as int - '0' as int + 52)
    else if c == '+' then Some(62)
    else if c == '/' then Some(63)
    else None
  }

  lemma IndexOfLetter(v: nat)
    requires v < 64
    ensures Index(Letter(v)) == Some(v) && Letter(v) != '='
  {
  }

  /** Table 1 of RFC 4648: three runs of letters and digits, each in its own order, and two signs. */
  lemma LettersAreTable1()
    ensures Letter(0) == 'A' && Letter(25) == 'Z' && Letter(26) == 'a' && Letter(51) == 'z'
    ensures Letter(52) == '0' && Letter(61) == '9' && Letter(62) == '+' && Letter(63) == '/'
    ensures forall v | 0 <= v < 61 && v != 25 && v != 51 :: Letter(v + 1) as int == Letter(v) as int + 1
  {
  }

  // ---- Groups of three bytes ----

  function Group(a: byte, b: byte, c: byte): (r: string)
    ensures |r| == 4
  {
    [Letter(a / 4), Letter(a % 4 * 16 + b / 16), Letter(b % 16 * 4 + c / 64), Letter(c % 64)]
  }

  function TwoBytes(a: byte, b: byte): (r: string)
    ensures |r| == 4
  {
    [Letter(a / 4), Letter(a % 4 * 16 + b / 16), Letter(b % 16 * 4), '=']
  }

  function OneByte(a: byte): (r: string)
    ensures |r| == 4
  {
    [Letter(a / 4), Letter(a % 4 * 16), '=', '=']
  }

  function Encode(s: seq<byte>): string {
    if s == [] then ""
    else if |s| == 1 then OneByte(s[0])
    else if |s| == 2 then TwoBytes(s[0], s[1])
    else Group(s[0], s[1], s[2]) + Encode(s[3..])
  }

  /** The bytes of four characters; `=` may stand for the last one or two. */
  function Ungroup(g: string): Option<seq<byte>>
    requires |g| == 4
  {
    match (Index(g[0]), Index(g[1]), Index(g[2]), Index(g[3]))
    case (Some(p), Some(q), Some(r), Some(t)) =>
      Some([p * 4 + q / 16, q % 16 * 16 + r / 4, r % 4 * 64 + t])
    case (Some(p), Some(q), Some(r), None) =>
      if g[3] == '=' then Some([p * 4 + q / 16, q % 16 * 16 + r / 4]) else None
    case (Some(p), Some(q), None, None) =>
      if g[2] == '=' && g[3] == '=' then Some([p * 4 + q / 16]) else None
    case _ => None
  }

  /** None for a length that is no multiple of 4, a foreign character, or padding before the end. */
  function Decode(t: string): Option<seq<byte>> {
    if t == "" then Some([])
    else if |t| < 4 then None
    else
      match (Ungroup(t[..4]), Decode(t[4..]))
      case (Some(a), Some(b)) => if |a| == 3 || b == [] then Some(a + b) else None
      case _ => None
  }

  lemma By16(high: nat, low: nat)
    requires low < 16
    ensures (high * 16 + low) / 16 == high && (high * 16 + low) % 16 == low
  {
  }

  lemma By4(high: nat, low: nat)
    requires low < 4
    ensures (high * 4 + low) / 4 == high && (high * 4 + low) % 4 == low
  {
  }

  lemma UngroupOfGroup(a: byte, b: byte, c: byte)
    ensures Ungroup(Group(a, b, c)) == Some([a, b, c])
  {
    By16(a % 4, b / 16);
    By4(b % 16, c / 64);
    IndexOfLetter(a / 4);
    IndexOfLetter(a % 4 * 16 + b / 16);
    IndexOfLetter(b % 16 * 4 + c / 64);
    IndexOfLetter(c % 64);
  }

  lemma UngroupOfPadded(a: byte, b: byte)
    ensures Ungroup(TwoBytes(a, b)) == Some([a, b])
  {
    IndexOfLetter(a / 4);
    IndexOfLetter(a % 4 * 16 + b / 16);
    IndexOfLetter(b % 16 * 4);
  }

  lemma UngroupOfTwicePadded(a: byte)
    ensures Ungroup(OneByte(a)) == Some([a])
  {
    IndexOfLetter(a / 4);
    IndexOfLetter(a % 4 * 16);
  }

  lemma DecodeLast(t: string, r: seq<byte>)
    requires |t| == 4 && Ungroup(t) == Some(r)
    ensures Decode(t) == Some(r)
  {
    assert t[..4] == t && t[4..] == "";
    assert r + [] == r;
  }

  lemma DecodeStep(g: string, rest: string, r: seq<byte>, s: seq<byte>)
    requires |g| == 4 && Ungroup(g) == Some(r) && |r| == 3 && Decode(rest) == Some(s)
    ensures Decode(g + rest) == Some(r + s)
  {
    assert (g + rest)[..4] == g && (g + rest)[4..] == rest;
  }

  lemma DecodeShort(s: seq<byte>)
    requires 1 <= |s| <= 2
    ensures Decode(Encode(s)) == Some(s)
  {
    if |s| == 1 {
      UngroupOfTwicePadded(s[0]);
      DecodeLast(OneByte(s[0]), [s[0]]);
      assert s == [s[0]];
    } else {
      UngroupOfPadded(s[0], s[1]);
      DecodeLast(TwoBytes(s[0], s[1]), [s[0], s[1]]);
      assert s == [s[0], s[1]];
    }
  }

  lemma DecodeGroup(s: seq<byte>, rest: string)
    requires |s| >= 3 && Decode(rest) == Some(s[3..])
    ensures Decode(Group(s[0], s[1], s[2]) + rest) == Some(s)
  {
    UngroupOfGroup(s[0], s[1], s[2]);
    DecodeStep(Group(s[0], s[1], s[2]), rest, [s[0], s[1], s[2]], s[3..]);
    assert s == [s[0], s[1], s[2]] + s[3..];
  }

  lemma {:induction false} DecodeOfEncode(s: seq<byte>)
    ensures Decode(Encode(s)) == Some(s)
  {
    if 1 <= |s| <= 2 {
      DecodeShort(s);
    } else if |s| > 2 {
      DecodeOfEncode(s[3..]);
      DecodeGroup(s, Encode(s[3..]));
    }
  }

  lemma EncodeGroup(s: seq<byte>)
    requires |s| >= 3
    ensures Encode(s) == Group(s[0], s[1], s[2]) + Encode(s[3..])
  {
  }

  lemma EncodeShort(s: seq<byte>)
    ensures |s| == 1 ==> Encode(s) == OneByte(s[0])
    ensures |s| == 2 ==> Encode(s) == TwoBytes(s[0], s[1])
  {
  }

  lemma EncodeNothing()
    ensures Encode([]) == ""
  {
  }

  /** Whole groups encode on their own, four characters for three bytes. */
  lemma {:induction false} EncodeConcat(a: seq<byte>, b: seq<byte>)
    requires |a| % 3 == 0
    ensures Encode(a + b) == Encode(a) + Encode(b)
    ensures |Encode(a)| == |a| / 3 * 4
    decreases |a|
  {
    hide Encode, Group;
    EncodeNothing();
    if a == [] {
      assert a + b == b;
    } else {
      var s := a + b;
      assert s[0] == a[0] && s[1] == a[1] && s[2] == a[2];
      assert s[3..] == a[3..] + b;
      EncodeGroup(s);
      EncodeGroup(a);
      EncodeConcat(a[3..], b);
      Regroup(Group(a[0], a[1], a[2]), Encode(a[3..]), Encode(b));
    }
  }

  lemma {:induction false} EncodedLength(s: seq<byte>)
    ensures |Encode(s)| == (|s| + 2) / 3 * 4
  {
    if |s| > 2 {
      EncodedLength(s[3..]);
      assert (|s| + 2) / 3 == (|s| - 1) / 3 + 1;
    }
  }

  // ---- Pieces ----

  /** Consecutive pieces of length `n`, the last one possibly shorter. */
  function Pieces<T>(s: seq<T>, n: nat): seq<seq<T>>
    requires n > 0
    decreases |s|
  {
    if s == [] then []
    else if |s| <= n then [s]
    else [s[..n]] + Pieces(s[n..], n)
  }

  lemma {:induction false} PiecesFlatten<T>(s: seq<T>, n: nat)
    requires n > 0
    ensures Flatten(Pieces(s, n)) == s
    decreases |s|
  {
    if s == [] {
    } else {
      if |s| <= n {
        FlattenOne(s);
      } else {
        PiecesFlatten(s[n..], n);
        assert s == s[..n] + s[n..];
      }
    }
  }

  lemma {:induction false} PieceSizes<T>(s: seq<T>, n: nat)
    requires n > 0
    ensures forall p | p in Pieces(s, n) :: 0 < |p| <= n
    decreases |s|
  {
    if |s| > n {
      PieceSizes(s[n..], n);
    }
  }

  lemma CutBehind<T>(a: seq<T>, b: seq<T>)
    ensures (a + b)[..|a|] == a && (a + b)[|a|..] == b
  {
  }

  function EncodeEach(parts: seq<seq<byte>>): seq<string> {
    if parts == [] then [] else [Encode(parts[0])] + EncodeEach(parts[1..])
  }

  lemma EachOfOne(part: seq<byte>)
    ensures EncodeEach([part]) == [Encode(part)]
  {
    var parts: seq<seq<byte>> := [part];
    assert parts[1..] == [];
  }

  lemma EachOfMore(part: seq<byte>, parts: seq<seq<byte>>)
    ensures EncodeEach([part] + parts) == [Encode(part)] + EncodeEach(parts)
  {
    assert ([part] + parts)[1..] == parts;
  }

  lemma PiecesStep<T>(s: seq<T>, n: nat)
    requires n > 0
    ensures s == [] ==> Pieces(s, n) == []
    ensures 0 < |s| <= n ==> Pieces(s, n) == [s]
    ensures |s| > n ==> Pieces(s, n) == [s[..n]] + Pieces(s[n..], n)
  {
  }

  /** Cutting the Base64 text every 4*k characters is cutting the bytes every 3*k. */
  lemma {:induction false} PiecesOfEncoded(s: seq<byte>, k: nat)
    requires k > 0
    ensures Pieces(Encode(s), 4 * k) == EncodeEach(Pieces(s, 3 * k))
    decreases |s|
  {
    hide Encode, Pieces;
    EncodedLength(s);
    PiecesStep(s, 3 * k);
    PiecesStep(Encode(s), 4 * k);
    if s == [] {
      assert Encode(s) == "";
    } else if |s| <= 3 * k {
      EachOfOne(s);
    } else {
      var a, b := s[..3 * k], s[3 * k..];
      assert s == a + b;
      EncodeConcat(a, b);
      EncodedLength(b);
      CutBehind(Encode(a), Encode(b));
      EachOfMore(a, Pieces(b, 3 * k));
      PiecesOfEncoded(b, k);
    }
  }

  lemma ExampleGroups()
    ensures OneByte(102) == "Zg==" && TwoBytes(102, 111) == "Zm8="
    ensures Group(102, 111, 111) == "Zm9v" && Group(98, 97, 114) == "YmFy"
  {
  }

  /** The examples of RFC 4648, section 10: f, fo, foo and foobar. */
  lemma Examples()
    ensures Encode([102]) == "Zg==" && Encode([102, 111]) == "Zm8=" && Encode([102, 111, 111]) == "Zm9v"
    ensures Encode([102, 111, 111, 98, 97, 114]) == "Zm9vYmFy"
  {
    hide Encode, Group, OneByte, TwoBytes;
    ExampleGroups();
    var foo: seq<byte>, bar: seq<byte> := [102, 111, 111], [98, 97, 114];
    assert Encode([102]) == OneByte(102) && Encode([102, 111]) == TwoBytes(102, 111) by {
      EncodeShort([102]);
      EncodeShort([102, 111]);
    }
    EncodeNothing();
    assert foo[3..] == [] && bar[3..] == [] && (foo + bar)[3..] == bar;
    EncodeGroup(foo);
    EncodeGroup(bar);
    EncodeGroup(foo + bar);
    assert foo + bar == [102, 111, 111, 98, 97, 114];
  }
}
