/**
  guacd's wire protocol: instructions are comma-separated, length-prefixed strings ended by
  a semicolon, in UTF-8. The backend prints them, reads them one byte at a time, and runs the
  opening handshake of a session.
 */
module Guacamole {
  import opened Common
  import Utf8

  // ---- Numbers as text ----

  function Decimal(n: nat): string {
    (if n < 10 then "" else Decimal(n / 10)) + [(48 + n % 10) as char]
  }

  /** Python's `str` of an integer. */
  function Str(n: int): string {
    if n < 0 then "-" + Decimal(-n) else Decimal(n)
  }

  predicate Digit(b: byte) {
    48 <= b <= 57
  }

  predicate Blank(b: byte) {
    b == 32 || 9 <= b <= 13
  }

  /** Digits, single underscores between them, blanks at the end; `after` says a digit came last. */
  function Digits(s: seq<byte>, sum: nat, after: bool): Option<nat> {
    if s == [] then if after then Some(sum) else None
    else if Digit(s[0]) then Digits(s[1..], 10 * sum + (s[0] - 48), true)
    else if s[0] == 95 && after then Digits(s[1..], sum, false)
    else if after && forall k | 0 <= k < |s| :: Blank(s[k]) then Some(sum)
    else None
  }

  /** Python's `int` of a bytes object; None where it raises. */
  function PyInt(s: seq<byte>): Option<int> {
    if s == [] then None
    else if Blank(s[0]) then PyInt(s[1..])
    else if s[0] == 43 then Digits(s[1..], 0, false)
    else if s[0] == 45 then
      (match Digits(s[1..], 0, false)
       case Some(n) => Some(0 - n)
       case None => None)
    else Digits(s, 0, false)
  }

  lemma {:induction false} DecimalBytes(n: nat)
    ensures var s := Utf8.Encode(Decimal(n)); s != [] && forall k | 0 <= k < |s| :: Digit(s[k])
  {
    var last := [(48 + n % 10) as char];
    assert Utf8.Encode(last) == [(48 + n % 10) as byte] by {
      assert last[1..] == "";
    }
    if n < 10 {
      assert Decimal(n) == last;
    } else {
      DecimalBytes(n / 10);
      Utf8.EncodeConcat(Decimal(n / 10), last);
    }
  }

  lemma OneDigit(d: nat, rest: seq<byte>, sum: nat, after: bool)
    requires d < 10
    ensures Digits([(48 + d) as byte] + rest, sum, after) == Digits(rest, 10 * sum + d, true)
  {
    assert ([(48 + d) as byte] + rest)[1..] == rest;
  }

  lemma {:induction false} DigitsOfDecimal(n: nat, rest: seq<byte>)
    ensures Digits(Utf8.Encode(Decimal(n)) + rest, 0, false) == Digits(rest, n, true)
  {
    hide Digits, Decimal, Utf8.Encode;
    var last := [(48 + n % 10) as byte];
    DecimalSplits(n);
    if n < 10 {
      OneDigit(n, rest, 0, false);
      assert Utf8.Encode(Decimal(n)) == last;
    } else {
      OneDigit(n % 10, rest, n / 10, true);
      DigitsOfDecimal(n / 10, last + rest);
      Regroup(Utf8.Encode(Decimal(n / 10)), last, rest);
    }
  }

  lemma DecimalSplits(n: nat)
    ensures Utf8.Encode(Decimal(n)) == (if n < 10 then [] else Utf8.Encode(Decimal(n / 10))) + [(48 + n % 10) as byte]
  {
    var last := [(48 + n % 10) as char];
    assert Utf8.Encode(last) == [(48 + n % 10) as byte] by {
      assert last[1..] == "";
    }
    if n < 10 {
      assert Decimal(n) == last;
    } else {
      Utf8.EncodeConcat(Decimal(n / 10), last);
    }
  }

  /** Python reads back what it prints. */
  lemma PyIntOfDecimal(n: nat)
    ensures PyInt(Utf8.Encode(Decimal(n))) == Some(n)
  {
    var s := Utf8.Encode(Decimal(n));
    DecimalBytes(n);
    DigitsOfDecimal(n, []);
    assert s + [] == s && Digit(s[0]);
  }

  lemma {:induction false} BlankAround(s: seq<byte>, front: seq<byte>)
    requires forall k | 0 <= k < |front| :: Blank(front[k])
    ensures PyInt(front + s) == PyInt(s)
  {
    if front == [] {
      assert front + s == s;
    } else {
      assert (front + s)[1..] == front[1..] + s;
      BlankAround(s, front[1..]);
    }
  }

  lemma DigitsThenBlanks(behind: seq<byte>, n: nat)
    requires forall k | 0 <= k < |behind| :: Blank(behind[k])
    ensures Digits(behind, n, true) == Some(n)
  {
    assert behind != [] ==> Blank(behind[0]);
  }

  /** What Python's int takes: a decimal number, with a sign or without, and blanks on either side. */
  lemma PyIntTakes(n: nat, front: seq<byte>, behind: seq<byte>)
    requires forall k | 0 <= k < |front| :: Blank(front[k])
    requires forall k | 0 <= k < |behind| :: Blank(behind[k])
    ensures var digits := Utf8.Encode(Decimal(n));
            && PyInt(front + (digits + behind)) == Some(n)
            && PyInt(front + ([43] + (digits + behind))) == Some(n)
            && PyInt(front + ([45] + (digits + behind))) == Some(0 - n)
  {
    hide Digits, Decimal, Utf8.Encode;
    var digits := Utf8.Encode(Decimal(n));
    var s := digits + behind;
    DecimalBytes(n);
    DigitsOfDecimal(n, behind);
    DigitsThenBlanks(behind, n);
    assert Digit(s[0]);
    assert ([43] + s)[1..] == s && ([45] + s)[1..] == s;
    BlankAround(s, front);
    BlankAround([43] + s, front);
    BlankAround([45] + s, front);
  }

  lemma EncodeMark(c: char)
    requires c < 128 as char
    ensures Utf8.Encode([c]) == [c as byte]
  {
    assert [c][1..] == "";
  }

  /** An underscore may follow a digit and must precede one. */
  lemma UnderscoreJoins(n: nat, behind: seq<byte>)
    ensures Digits([95] + behind, n, false) == None
    ensures behind == [] || behind[0] == 95 || Blank(behind[0]) ==> Digits([95] + behind, n, true) == None
    ensures behind != [] && Digit(behind[0]) ==> Digits([95] + behind, n, true) == Digits(behind, n, true)
  {
    assert ([95] + behind)[1..] == behind;
  }

  /** Python reads back any integer it prints. */
  lemma PyIntOfStr(n: int)
    ensures PyInt(Utf8.Encode(Str(n))) == Some(n)
  {
    hide PyInt, Decimal;
    var m: nat := if n < 0 then -n else n;
    var digits := Utf8.Encode(Decimal(m));
    PyIntTakes(m, [], []);
    assert digits + [] == digits && [] + digits == digits && [] + ([45] + digits) == [45] + digits;
    if n < 0 {
      Utf8.EncodeConcat("-", Decimal(m));
      EncodeMark('-');
    }
  }

  // ---- The printer ----

  function Element(part: string): string {
    Decimal(|part|) + "." + part
  }

  /** The text of an instruction, opcode first. */
  function Text(parts: seq<string>): string {
    if parts == [] then ";"
    else if |parts| == 1 then Element(parts[0]) + ";"
    else Element(parts[0]) + "," + Text(parts[1..])
  }

  function EncodeInstruction(parts: seq<string>): seq<byte> {
    Utf8.Encode(Text(parts))
  }

  predicate AllAscii(parts: seq<string>) {
    forall k | 0 <= k < |parts| :: Utf8.Ascii(parts[k])
  }

  // ---- The reader ----

  datatype Error = Incomplete | BadLength | BadText

  /** One element and whether it was the last, or why there is none; and the bytes left. */
  datatype Piece =
    | Piece(value: string, last: bool, rest: seq<byte>)
    | NoPiece(error: Error, rest: seq<byte>)

  /** Where the first full stop is, or the length. */
  function Dot(s: seq<byte>): (k: nat)
    ensures k <= |s| && (k < |s| ==> s[k] == 46) && forall j | 0 <= j < k :: s[j] != 46
  {
    if s == [] || s[0] == 46 then 0 else 1 + Dot(s[1..])
  }

  /** An element whose length counts bytes; anything but a semicolon after it means that more follow. */
  function ReadElement(s: seq<byte>): (p: Piece)
    ensures |p.rest| <= |s| && (s != [] ==> |p.rest| < |s|)
  {
    var d := Dot(s);
    if d == |s| then NoPiece(Incomplete, [])
    else
      var body := s[d + 1..];
      match PyInt(s[..d])
      case None => NoPiece(BadLength, body)
      case Some(n) =>
        if n < 0 then NoPiece(BadLength, body)
        else if |body| < n then NoPiece(Incomplete, [])
        else
          match Utf8.Decode(body[..n])
          case None => NoPiece(BadText, body[n..])
          case Some(v) => if |body| == n then NoPiece(Incomplete, []) else Piece(v, body[n] == 59, body[n + 1..])
  }

  datatype Outcome =
    | Got(parts: seq<string>, rest: seq<byte>)
    | Failed(error: Error, rest: seq<byte>)

  /** The instruction at the front of a stream. */
  function Instruction(s: seq<byte>): (o: Outcome)
    ensures o.Got? ==> o.parts != []
    decreases |s|
  {
    match ReadElement(s)
    case NoPiece(error, rest) => Failed(error, rest)
    case Piece(v, last, rest) =>
      if last then Got([v], rest)
      else Behind([v], Instruction(rest))
  }

  function Behind(parts: seq<string>, o: Outcome): Outcome {
    if o.Got? then o.(parts := parts + o.parts) else o
  }

  lemma {:induction false} DotAfter(a: seq<byte>, b: seq<byte>)
    requires forall j | 0 <= j < |a| :: a[j] != 46
    requires b == [] || b[0] == 46
    ensures Dot(a + b) == |a|
  {
    if a == [] {
      assert a + b == b;
    } else {
      assert (a + b)[1..] == a[1..] + b;
      DotAfter(a[1..], b);
    }
  }

  lemma Sliced<T>(a: seq<T>, x: T, b: seq<T>)
    ensures (a + ([x] + b))[..|a|] == a && (a + ([x] + b))[|a| + 1..] == b
  {
  }

  lemma FirstByte(s: seq<byte>, first: seq<byte>, rest: seq<byte>)
    requires s != [] && first == s[..1] && rest == s[1..]
    ensures s == first + rest && first == [s[0]]
  {
  }

  lemma BehindBehind(a: seq<string>, b: seq<string>, o: Outcome)
    ensures Behind(a, Behind(b, o)) == Behind(a + b, o)
  {
    if o.Got? {
      assert a + (b + o.parts) == a + b + o.parts;
    }
  }

  datatype Result<T> = Ok(value: T) | Err(error: Error)

  /** asyncio's stream reader: everything that will ever arrive, in order. */
  class StreamReader {
    var data: seq<byte>

    /** On a short stream the bytes there are, are gone. */
    method ReadExactly(n: int) returns (r: Result<seq<byte>>)
      modifies this
      ensures n < 0 ==> r == Err(BadLength) && data == old(data)
      ensures 0 <= n <= |old(data)| ==> r == Ok(old(data)[..n]) && data == old(data)[n..]
      ensures n > |old(data)| ==> r == Err(Incomplete) && data == []
    {
      if n < 0 {
        return Err(BadLength);
      }
      if n > |data| {
        data := [];
        return Err(Incomplete);
      }
      r := Ok(data[..n]);
      data := data[n..];
    }

    /** Reads up to a full stop; what came before it. */
    method ReadLength() returns (r: Result<seq<byte>>)
      modifies this
      ensures var d := Dot(old(data));
              if d == |old(data)| then r == Err(Incomplete) && data == []
              else r == Ok(old(data)[..d]) && data == old(data)[d + 1..]
    {
      hide Dot;
      var lengthStr: seq<byte> := [];
      while true
        invariant old(data) == lengthStr + data
        invariant forall j | 0 <= j < |lengthStr| :: lengthStr[j] != 46
        decreases |data|
      {
        ghost var before := data;
        var ch := ReadExactly(1);
        if ch.Err? {
          DotAfter(lengthStr, before);
          return Err(ch.error);
        }
        FirstByte(before, ch.value, data);
        if ch.value == [46] {
          DotAfter(lengthStr, before);
          Sliced(lengthStr, 46, data);
          return Ok(lengthStr);
        }
        Regroup(lengthStr, ch.value, data);
        lengthStr := lengthStr + ch.value;
      }
    }

    /** One turn of the reading loop: an element's value, and whether a semicolon followed it. */
    method ReadPart() returns (r: Result<(string, bool)>)
      modifies this
      ensures match ReadElement(old(data))
              case Piece(value, last, rest) => r == Ok((value, last)) && data == rest
              case NoPiece(error, rest) => r == Err(error) && data == rest
      ensures r.Ok? ==> |data| < |old(data)|
    {
      hide Dot, PyInt, Utf8.Decode;
      var lengthStr := ReadLength();
      if lengthStr.Err? {
        return Err(lengthStr.error);
      }
      var length := PyInt(lengthStr.value);
      if length == None {
        return Err(BadLength);
      }
      ghost var body := data;
      var bytes := ReadExactly(length.value);
      if bytes.Err? {
        return Err(bytes.error);
      }
      var value := Utf8.Decode(bytes.value);
      if value == None {
        return Err(BadText);
      }
      var terminator := ReadExactly(1);
      if terminator.Err? {
        return Err(terminator.error);
      }
      AfterPart(body, length.value);
      return Ok((value.value, terminator.value == [59]));
    }

    method ReadInstruction() returns (r: Result<seq<string>>)
      modifies this
      ensures match Instruction(old(data))
              case Got(parts, rest) => r == Ok(parts) && data == rest
              case Failed(error, rest) => r == Err(error) && data == rest
    {
      hide ReadElement;
      var args: seq<string> := [];
      while true
        invariant Instruction(old(data)) == Behind(args, Instruction(data))
        decreases |data|
      {
        var part := ReadPart();
        if part.Err? {
          return Err(part.error);
        }
        var (value, last) := part.value;
        BehindBehind(args, [value], Instruction(data));
        args := args + [value];
        if last {
          return Ok(args);
        }
      }
    }
  }

  lemma AfterPart(body: seq<byte>, n: nat)
    requires n < |body|
    ensures body[n..][..1] == [body[n]] && body[n..][1..] == body[n + 1..]
  {
  }

  // ---- Printing and reading ----

  lemma EncodedElement(part: string)
    ensures Utf8.Encode(Element(part)) == Utf8.Encode(Decimal(|part|)) + ([46] + Utf8.Encode(part))
  {
    hide Utf8.Encode, Decimal;
    Utf8.EncodeConcat(Decimal(|part|) + ".", part);
    Utf8.EncodeConcat(Decimal(|part|), ".");
    EncodeMark('.');
    Regroup(Utf8.Encode(Decimal(|part|)), [46], Utf8.Encode(part));
  }

  lemma LengthSeen(digits: seq<byte>, n: nat, body: seq<byte>)
    requires (forall k | 0 <= k < |digits| :: digits[k] != 46) && PyInt(digits) == Some(n) && n < |body|
    ensures ReadElement(digits + ([46] + body))
              == match Utf8.Decode(body[..n])
                 case None => NoPiece(BadText, body[n..])
                 case Some(v) => Piece(v, body[n] == 59, body[n + 1..])
  {
    hide PyInt, Utf8.Decode, Dot;
    DotAfter(digits, [46] + body);
    Sliced(digits, 46, body);
  }

  /** What the reader sees of one printed element: as many bytes as the element has characters. */
  lemma ElementSeen(part: string, behind: seq<byte>)
    requires behind != []
    ensures var body := Utf8.Encode(part) + behind;
            && |part| < |body|
            && ReadElement(Utf8.Encode(Element(part)) + behind)
                 == match Utf8.Decode(body[..|part|])
                    case None => NoPiece(BadText, body[|part|..])
                    case Some(v) => Piece(v, body[|part|] == 59, body[|part| + 1..])
  {
    hide ReadElement, PyInt, Utf8.Encode, Utf8.Decode, Decimal, Element;
    var digits := Utf8.Encode(Decimal(|part|));
    var body := Utf8.Encode(part) + behind;
    EncodedElement(part);
    Regroup(digits, [46] + Utf8.Encode(part), behind);
    Regroup([46], Utf8.Encode(part), behind);
    DecimalBytes(|part|);
    PyIntOfDecimal(|part|);
    Utf8.EncodedLength(part);
    LengthSeen(digits, |part|, body);
  }

  /** A printed element is read back as it was exactly when it is ASCII; then exactly its bytes are consumed. */
  lemma ElementRoundTrip(part: string, behind: seq<byte>)
    requires behind != []
    ensures var p := ReadElement(Utf8.Encode(Element(part)) + behind);
            && (Utf8.Ascii(part) ==> p == Piece(part, behind[0] == 59, behind[1..]))
            && (p.Piece? && p.value == part ==> Utf8.Ascii(part))
  {
    hide ReadElement, Element, Utf8.Encode, Utf8.Decode;
    var body := Utf8.Encode(part) + behind;
    ElementSeen(part, behind);
    Utf8.EncodedLength(part);
    if Utf8.Ascii(part) {
      assert body[..|part|] == Utf8.Encode(part);
      Utf8.DecodeOfEncode(part);
      assert body[|part| + 1..] == behind[1..];
    } else if Utf8.Decode(body[..|part|]) == Some(part) {
      Utf8.EncodeOfDecode(body[..|part|]);
      assert false;
    }
  }

  lemma EncodedText(parts: seq<string>)
    requires parts != []
    ensures EncodeInstruction(parts)
              == Utf8.Encode(Element(parts[0])) + if |parts| == 1 then [59] else [44] + EncodeInstruction(parts[1..])
  {
    hide Element, Utf8.Encode;
    var e := Element(parts[0]);
    EncodeMark(';');
    EncodeMark(',');
    if |parts| == 1 {
      Utf8.EncodeConcat(e, ";");
    } else {
      Utf8.EncodeConcat(e + ",", Text(parts[1..]));
      Utf8.EncodeConcat(e, ",");
      Regroup(Utf8.Encode(e), [44], EncodeInstruction(parts[1..]));
    }
  }

  lemma BehindIs(v: string, o: Outcome, parts: seq<string>, tail: seq<byte>)
    requires |parts| > 1
    ensures Behind([v], o) == Got(parts, tail) <==> v == parts[0] && o == Got(parts[1..], tail)
    ensures GotParts(Behind([v], o), parts) <==> v == parts[0] && GotParts(o, parts[1..])
  {
    if o.Got? {
      assert ([v] + o.parts)[1..] == o.parts;
      assert parts == [parts[0]] + parts[1..];
    }
  }

  predicate GotParts(o: Outcome, parts: seq<string>) {
    o.Got? && o.parts == parts
  }

  lemma AsciiParts(parts: seq<string>)
    requires parts != []
    ensures AllAscii(parts) <==> Utf8.Ascii(parts[0]) && AllAscii(parts[1..])
  {
    assert parts == [parts[0]] + parts[1..];
  }

  /**
    A printed instruction is read back as it was, with exactly its bytes consumed, if every
    part is ASCII - whatever the parts contain otherwise, and whatever follows. If any is not,
    something else is read.
   */
  lemma {:induction false} InstructionRoundTrip(parts: seq<string>, tail: seq<byte>)
    requires parts != []
    ensures AllAscii(parts) ==> Instruction(EncodeInstruction(parts) + tail) == Got(parts, tail)
    ensures GotParts(Instruction(EncodeInstruction(parts) + tail), parts) ==> AllAscii(parts)
    decreases |parts|
  {
    hide ReadElement, Element, EncodeInstruction, Utf8.Ascii;
    var more := if |parts| == 1 then [59] else [44] + EncodeInstruction(parts[1..]);
    var behind := more + tail;
    var s := EncodeInstruction(parts) + tail;
    EncodedText(parts);
    Regroup(Utf8.Encode(Element(parts[0])), more, tail);
    ElementRoundTrip(parts[0], behind);
    if |parts| == 1 {
      assert behind[1..] == tail;
      assert parts == [parts[0]];
    } else {
      assert behind[1..] == EncodeInstruction(parts[1..]) + tail;
      InstructionRoundTrip(parts[1..], tail);
      AsciiParts(parts);
      var p := ReadElement(s);
      if p.Piece? && !p.last {
        BehindIs(p.value, Instruction(p.rest), parts, tail);
      }
    }
  }

  // ---- Streams that are not instructions ----

  lemma ElementCutShort(part: string, k: nat)
    requires Utf8.Ascii(part) && k <= |Utf8.Encode(Element(part))|
    ensures ReadElement(Utf8.Encode(Element(part))[..k]) == NoPiece(Incomplete, [])
  {
    hide PyInt, Utf8.Encode, Utf8.Decode, Decimal, Dot, Element;
    var digits, body := Utf8.Encode(Decimal(|part|)), Utf8.Encode(part);
    var s := Utf8.Encode(Element(part))[..k];
    EncodedElement(part);
    DecimalBytes(|part|);
    Utf8.EncodedLength(part);
    if k <= |digits| {
      assert s == digits[..k] && s + [] == s;
      DotAfter(s, []);
    } else {
      var rest := body[..k - |digits| - 1];
      assert s == digits + ([46] + rest);
      DotAfter(digits, [46] + rest);
      Sliced(digits, 46, rest);
      PyIntOfDecimal(|part|);
      if |rest| == |part| {
        assert rest[..|part|] == body;
        Utf8.DecodeOfEncode(part);
      }
    }
  }

  /** A stream that ends inside an instruction - anywhere inside - is reported as such, and used up. */
  lemma {:induction false} CutShortIsIncomplete(parts: seq<string>, k: nat)
    requires parts != [] && AllAscii(parts) && k < |EncodeInstruction(parts)|
    ensures Instruction(EncodeInstruction(parts)[..k]) == Failed(Incomplete, [])
    decreases |parts|
  {
    hide ReadElement, Element, EncodeInstruction, Utf8.Ascii, Utf8.Encode;
    var first := Utf8.Encode(Element(parts[0]));
    EncodedText(parts);
    AsciiParts(parts);
    if k <= |first| {
      assert EncodeInstruction(parts)[..k] == first[..k];
      ElementCutShort(parts[0], k);
    } else {
      var j := k - |first| - 1;
      var rest := EncodeInstruction(parts[1..]);
      var behind := [44] + rest[..j];
      assert EncodeInstruction(parts)[..k] == first + behind;
      ElementRoundTrip(parts[0], behind);
      assert behind[1..] == rest[..j];
      CutShortIsIncomplete(parts[1..], j);
    }
  }

  /** A negative length is refused, with what follows it left unread. */
  lemma NegativeLengthIsRefused(n: nat, rest: seq<byte>)
    requires n > 0
    ensures Instruction([45] + Utf8.Encode(Decimal(n)) + ([46] + rest)) == Failed(BadLength, rest)
  {
    hide PyInt, Utf8.Encode, Decimal, Dot;
    var length := [45] + Utf8.Encode(Decimal(n));
    DecimalBytes(n);
    DotAfter(length, [46] + rest);
    Sliced(length, 46, rest);
    PyIntTakes(n, [], []);
    assert [] + ([45] + (Utf8.Encode(Decimal(n)) + [])) == length;
  }

  /** So is a length that is missing. */
  lemma MissingLengthIsRefused(rest: seq<byte>)
    ensures Instruction([46] + rest) == Failed(BadLength, rest)
  {
    var s := [46] + rest;
    assert s[..0] == [] && s[1..] == rest;
  }

  // ---- Streams of instructions ----

  function EncodeAll(instructions: seq<seq<string>>): seq<byte> {
    if instructions == [] then [] else EncodeInstruction(instructions[0]) + EncodeAll(instructions[1..])
  }

  /** n instructions off the front of a stream, and what is left. */
  function ReadMany(s: seq<byte>, n: nat): Option<(seq<seq<string>>, seq<byte>)>
    decreases n
  {
    if n == 0 then Some(([], s))
    else
      match Instruction(s)
      case Failed(_, _) => None
      case Got(parts, rest) =>
        match ReadMany(rest, n - 1)
        case None => None
        case Some((more, end)) => Some(([parts] + more, end))
  }

  /** A stream of instructions is read back, nothing more and nothing less, exactly when all their parts are ASCII. */
  lemma {:induction false} StreamRoundTrip(instructions: seq<seq<string>>, tail: seq<byte>)
    requires forall i | 0 <= i < |instructions| :: instructions[i] != []
    ensures ReadMany(EncodeAll(instructions) + tail, |instructions|) == Some((instructions, tail))
            <==> forall i | 0 <= i < |instructions| :: AllAscii(instructions[i])
    decreases |instructions|
  {
    hide Instruction, EncodeInstruction, AllAscii;
    if instructions == [] {
      assert [] + tail == tail;
    } else {
      var first, rest := instructions[0], instructions[1..];
      var after := EncodeAll(rest) + tail;
      Regroup(EncodeInstruction(first), EncodeAll(rest), tail);
      InstructionRoundTrip(first, after);
      StreamRoundTrip(rest, tail);
      assert instructions == [first] + rest;
      var o := Instruction(EncodeInstruction(first) + after);
      if o.Got? && ReadMany(o.rest, |rest|).Some? {
        var m := ReadMany(o.rest, |rest|).value;
        assert ([o.parts] + m.0)[1..] == m.0;
      }
    }
  }

  // ---- The protocol's own reading, with lengths in characters ----

  /** Digits up to a full stop: their value and what follows. */
  function TextLength(t: string, sum: nat, any: bool): (r: Option<(nat, string)>)
    ensures r.Some? ==> |r.value.1| < |t|
  {
    if t == "" then None
    else if '0' <= t[0] <= '9' then TextLength(t[1..], 10 * sum + (t[0] as int - 48), true)
    else if t[0] == '.' && any then Some((sum, t[1..]))
    else None
  }

  /** LENGTH.VALUE elements with commas between them and a semicolon at the end. */
  function TextInstruction(t: string): (r: Option<(seq<string>, string)>)
    ensures r.Some? ==> r.value.0 != [] && |r.value.1| < |t|
    decreases |t|
  {
    match TextLength(t, 0, false)
    case None => None
    case Some((n, body)) =>
      if |body| <= n then None
      else if body[n] == ';' then Some(([body[..n]], body[n + 1..]))
      else if body[n] != ',' then None
      else
        match TextInstruction(body[n + 1..])
        case None => None
        case Some((parts, rest)) => Some(([body[..n]] + parts, rest))
  }

  function TextStream(t: string): Option<seq<seq<string>>>
    decreases |t|
  {
    if t == "" then Some([])
    else
      match TextInstruction(t)
      case None => None
      case Some((parts, rest)) =>
        match TextStream(rest)
        case None => None
        case Some(more) => Some([parts] + more)
  }

  /** What a receiver that follows the protocol makes of a stream of bytes. */
  function Understood(s: seq<byte>): Option<seq<seq<string>>> {
    match Utf8.Decode(s)
    case None => None
    case Some(t) => TextStream(t)
  }

  lemma OneMoreDigit(d: nat, rest: string, sum: nat, any: bool)
    requires d < 10
    ensures TextLength([(48 + d) as char] + rest, sum, any) == TextLength(rest, 10 * sum + d, true)
  {
    assert ([(48 + d) as char] + rest)[1..] == rest;
  }

  lemma {:induction false} LengthOfDecimal(n: nat, rest: string)
    ensures TextLength(Decimal(n) + rest, 0, false) == TextLength(rest, n, true)
  {
    hide TextLength;
    var last := [(48 + n % 10) as char];
    if n < 10 {
      OneMoreDigit(n, rest, 0, false);
      assert Decimal(n) == last;
    } else {
      OneMoreDigit(n % 10, rest, n / 10, true);
      LengthOfDecimal(n / 10, last + rest);
      Regroup(Decimal(n / 10), last, rest);
    }
  }

  lemma ElementText(part: string, mark: char, tail: string)
    ensures TextLength(Element(part) + ([mark] + tail), 0, false) == Some((|part|, part + ([mark] + tail)))
  {
    hide Decimal;
    var behind := "." + (part + ([mark] + tail));
    LengthOfDecimal(|part|, behind);
    assert Element(part) + ([mark] + tail) == Decimal(|part|) + behind;
    assert behind[1..] == part + ([mark] + tail);
  }

  lemma LastElementText(part: string, tail: string)
    ensures TextInstruction(Element(part) + (";" + tail)) == Some(([part], tail))
  {
    hide TextLength, Element;
    ElementText(part, ';', tail);
    Sliced(part, ';', tail);
  }

  lemma FurtherElementText(part: string, behind: string, parts: seq<string>, tail: string)
    requires TextInstruction(behind) == Some((parts, tail))
    ensures TextInstruction(Element(part) + ("," + behind)) == Some(([part] + parts, tail))
  {
    hide TextLength, Element;
    ElementText(part, ',', behind);
    Sliced(part, ',', behind);
  }

  lemma {:induction false} TextRoundTrip(parts: seq<string>, tail: string)
    requires parts != []
    ensures TextInstruction(Text(parts) + tail) == Some((parts, tail))
    decreases |parts|
  {
    hide TextInstruction, Element;
    var p := parts[0];
    if |parts| == 1 {
      LastElementText(p, tail);
      Regroup(Element(p), ";", tail);
      assert parts == [p];
    } else {
      var more := Text(parts[1..]);
      TextRoundTrip(parts[1..], tail);
      FurtherElementText(p, more + tail, parts[1..], tail);
      Regroup(Element(p) + ",", more, tail);
      Regroup(Element(p), ",", more + tail);
      Regroup(Element(p), ",", more);
      assert parts == [p] + parts[1..];
    }
  }

  function Texts(instructions: seq<seq<string>>): string {
    if instructions == [] then "" else Text(instructions[0]) + Texts(instructions[1..])
  }

  lemma {:induction false} EncodedTexts(instructions: seq<seq<string>>)
    ensures EncodeAll(instructions) == Utf8.Encode(Texts(instructions))
  {
    if instructions == [] {
    } else {
      EncodedTexts(instructions[1..]);
      Utf8.EncodeConcat(Text(instructions[0]), Texts(instructions[1..]));
    }
  }

  lemma {:induction false} TextsRoundTrip(instructions: seq<seq<string>>)
    requires forall i | 0 <= i < |instructions| :: instructions[i] != []
    ensures TextStream(Texts(instructions)) == Some(instructions)
  {
    hide TextInstruction;
    if instructions == [] {
    } else {
      var first, rest := instructions[0], instructions[1..];
      TextRoundTrip(first, Texts(rest));
      TextsRoundTrip(rest);
      assert instructions == [first] + rest;
      assert Text(first) + Texts(rest) != "";
    }
  }

  /** The printer is right for all parts, ASCII or not: a receiver that follows the protocol gets what was sent. */
  lemma PrinterConforms(instructions: seq<seq<string>>)
    requires forall i | 0 <= i < |instructions| :: instructions[i] != []
    ensures Understood(EncodeAll(instructions)) == Some(instructions)
  {
    EncodedTexts(instructions);
    Utf8.DecodeOfEncode(Texts(instructions));
    TextsRoundTrip(instructions);
  }

  // ---- The handshake ----

  datatype Target = Target(
    host: string, port: int, username: Option<string>, password: Option<string>,
    width: int, height: int, dpi: int)

  function OrEmpty(s: Option<string>): string {
    if s.Some? then s.value else ""
  }

  /** The value for one offered argument name. */
  function Answer(p: Target, name: string): string {
    if "VERSION_" <= name then name
    else if name == "hostname" then p.host
    else if name == "port" then Str(p.port)
    else if name == "username" then OrEmpty(p.username)
    else if name == "password" then OrEmpty(p.password)
    else if name == "width" then Str(p.width)
    else if name == "height" then Str(p.height)
    else if name == "dpi" then Str(p.dpi)
    else if name == "resize-method" then "display-update"
    else if name == "ignore-cert" then "true"
    else if name == "enable-drive" then "false"
    else if name == "disable-audio" then "true"
    else if name == "security" then "any"
    else ""
  }

  function Answers(p: Target, names: seq<string>): seq<string> {
    seq(|names|, k requires 0 <= k < |names| => Answer(p, names[k]))
  }

  /** What the backend sends after guacd has offered `names`. */
  function Reply(p: Target, names: seq<string>): seq<seq<string>> {
    [ ["size", Str(p.width), Str(p.height), Str(if p.dpi > 0 then p.dpi else 96)],
      ["audio", "audio/L16"],
      ["video"],
      ["image", "image/png", "image/jpeg", "image/webp"],
      ["connect"] + Answers(p, names) ]
  }

  const SELECT: seq<string> := ["select", "rdp"]

  class StreamWriter {
    var sent: seq<byte>
    var closed: bool

    method Write(bytes: seq<byte>)
      modifies this`sent
      ensures sent == old(sent) + bytes
    {
      sent := sent + bytes;
    }
  }

  /** A text that reads as an integer. */
  predicate Says(text: string, n: int) {
    PyInt(Utf8.Encode(text)) == Some(n)
  }

  /** What guacd must find under the name of an argument. */
  ghost predicate Configured(p: Target, name: string, value: string) {
    && (name == "hostname" ==> value == p.host)
    && (name == "port" ==> Says(value, p.port))
    && (name == "username" ==> value == match p.username case Some(u) => u case None => "")
    && (name == "password" ==> value == match p.password case Some(w) => w case None => "")
    && (name == "width" ==> Says(value, p.width))
    && (name == "height" ==> Says(value, p.height))
    && (name == "dpi" ==> Says(value, p.dpi))
    && (name == "resize-method" ==> value == "display-update")
    && (name == "ignore-cert" ==> value == "true")
    && (name == "enable-drive" ==> value == "false")
    && (name == "disable-audio" ==> value == "true")
    && (name == "security" ==> value == "any")
    && ("VERSION_" <= name ==> value == name)
    && (name !in KNOWN && !("VERSION_" <= name) ==> value == "")
  }

  const KNOWN: set<string> := {
    "hostname", "port", "username", "password", "width", "height", "dpi",
    "resize-method", "ignore-cert", "enable-drive", "disable-audio", "security" }

  /**
    What guacd must have understood when it has offered `names`: the protocol selected, a size
    with a positive resolution, the codecs, and then connect with one value for each name, in
    position.
   */
  ghost predicate Introduced(p: Target, names: seq<string>, said: seq<seq<string>>) {
    && |said| == 6
    && said[0] == ["select", "rdp"]
    && |said[1]| == 4 && said[1][0] == "size" && Says(said[1][1], p.width) && Says(said[1][2], p.height)
    && (exists dpi: int :: 0 < dpi && Says(said[1][3], dpi) && (0 < p.dpi ==> dpi == p.dpi))
    && said[2] == ["audio", "audio/L16"]
    && said[3] == ["video"]
    && said[4] == ["image", "image/png", "image/jpeg", "image/webp"]
    && |said[5]| == |names| + 1 && said[5][0] == "connect"
    && forall k | 0 <= k < |names| :: Configured(p, names[k], said[5][k + 1])
  }

  /** How the handshake ends: the ready instruction to replay, guacd's refusal, or a read that failed. */
  datatype Handshake = Ready(replay: string) | Refused(reply: seq<string>) | Broken(error: Error)

  /** What guacd understands of these bytes is an introduction. */
  ghost predicate Introduces(p: Target, names: seq<string>, bytes: seq<byte>) {
    var said := Understood(bytes);
    said.Some? && Introduced(p, names, said.value)
  }

  /** The five instructions that answer guacd's offer. */
  method WriteReply(writer: StreamWriter, p: Target, names: seq<string>)
    modifies writer
    ensures writer.sent == old(writer.sent) + EncodeAll(Reply(p, names)) && writer.closed == old(writer.closed)
  {
    hide EncodeInstruction, EncodeAll, Answers, Str;
    writer.Write(EncodeInstruction(["size", Str(p.width), Str(p.height), Str(if p.dpi > 0 then p.dpi else 96)]));
    writer.Write(EncodeInstruction(["audio", "audio/L16"]));
    writer.Write(EncodeInstruction(["video"]));
    writer.Write(EncodeInstruction(["image", "image/png", "image/jpeg", "image/webp"]));
    writer.Write(EncodeInstruction(["connect"] + Answers(p, names)));
    FiveEncoded(Reply(p, names));
  }

  method OpenGuacdConnection(reader: StreamReader, writer: StreamWriter, p: Target) returns (r: Handshake)
    modifies reader, writer
    ensures old(writer.sent) <= writer.sent
    ensures match Instruction(old(reader.data))
            case Failed(error, _) => r == Broken(error) && writer.sent == old(writer.sent) + EncodeAll([SELECT])
            case Got(offer, rest) =>
              && writer.sent == old(writer.sent) + EncodeAll([SELECT] + Reply(p, offer[1..]))
              && Introduces(p, offer[1..], writer.sent[|old(writer.sent)|..])
              && match Instruction(rest)
                 case Failed(error, _) => r == Broken(error)
                 case Got(reply, more) =>
                   && r == (if reply[0] == "ready" then Ready(Text(reply)) else Refused(reply))
                   && reader.data == more
    ensures writer.closed == (old(writer.closed) || r.Refused?)
  {
    hide Instruction, EncodeInstruction, EncodeAll, Reply, Introduces, Text;
    ghost var before := writer.sent;
    EncodeFirst(SELECT, []);
    writer.Write(EncodeInstruction(SELECT));
    var offer := reader.ReadInstruction();
    if offer.Err? {
      return Broken(offer.error);
    }
    var names := offer.value[1..];
    WriteReply(writer, p, names);
    SaidAfter(before, p, names);
    var reply := reader.ReadInstruction();
    if reply.Err? {
      return Broken(reply.error);
    }
    if reply.value[0] != "ready" {
      writer.closed := true;
      return Refused(reply.value);
    }
    return Ready(Text(reply.value));
  }

  lemma SaidAfter(before: seq<byte>, p: Target, names: seq<string>)
    ensures var sent := before + EncodeInstruction(SELECT) + EncodeAll(Reply(p, names));
            && sent == before + EncodeAll([SELECT] + Reply(p, names))
            && Introduces(p, names, sent[|before|..])
  {
    hide EncodeInstruction, EncodeAll, Reply, Introduced, Understood;
    EncodeFirst(SELECT, Reply(p, names));
    Regroup(before, EncodeInstruction(SELECT), EncodeAll(Reply(p, names)));
    HandshakeUnderstood(p, names);
    var said := EncodeAll([SELECT] + Reply(p, names));
    assert (before + said)[|before|..] == said;
  }

  lemma EncodeFirst(first: seq<string>, rest: seq<seq<string>>)
    ensures EncodeAll([first]) == EncodeInstruction(first)
    ensures EncodeAll([first] + rest) == EncodeInstruction(first) + EncodeAll(rest)
  {
    hide EncodeInstruction;
    var one: seq<seq<string>> := [first];
    assert one[1..] == [] && ([first] + rest)[1..] == rest;
    assert EncodeInstruction(first) + [] == EncodeInstruction(first);
  }

  lemma {:induction false} EncodeAppend(front: seq<seq<string>>, last: seq<string>)
    ensures EncodeAll(front + [last]) == EncodeAll(front) + EncodeInstruction(last)
  {
    hide EncodeInstruction;
    if front == [] {
      assert [last][1..] == [] && front + [last] == [last];
    } else {
      assert (front + [last])[1..] == front[1..] + [last];
      EncodeAppend(front[1..], last);
      Regroup(EncodeInstruction(front[0]), EncodeAll(front[1..]), EncodeInstruction(last));
    }
  }

  lemma FiveEncoded(all: seq<seq<string>>)
    requires |all| == 5
    ensures EncodeAll(all)
              == EncodeInstruction(all[0]) + EncodeInstruction(all[1]) + EncodeInstruction(all[2])
                   + EncodeInstruction(all[3]) + EncodeInstruction(all[4])
  {
    hide EncodeAll, EncodeInstruction;
    EncodeFirst(all[0], []);
    EncodeAppend([all[0]], all[1]);
    EncodeAppend([all[0]] + [all[1]], all[2]);
    EncodeAppend([all[0]] + [all[1]] + [all[2]], all[3]);
    EncodeAppend([all[0]] + [all[1]] + [all[2]] + [all[3]], all[4]);
    assert all == [all[0]] + [all[1]] + [all[2]] + [all[3]] + [all[4]];
  }

  lemma AnswerConfigures(p: Target, name: string)
    ensures Configured(p, name, Answer(p, name))
  {
    hide Str, PyInt, Utf8.Encode;
    PyIntOfStr(p.port);
    PyIntOfStr(p.width);
    PyIntOfStr(p.height);
    PyIntOfStr(p.dpi);
    assert "VERSION_" <= name ==> name[0] == 'V';
  }

  /** guacd, reading by the protocol, understands the handshake as it must, for every target and all names offered. */
  lemma HandshakeUnderstood(p: Target, names: seq<string>)
    ensures Introduces(p, names, EncodeAll([SELECT] + Reply(p, names)))
  {
    hide Answer, Understood, EncodeAll, Str, PyInt, Configured, Utf8.Encode;
    var all := [SELECT] + Reply(p, names);
    PrinterConforms(all);
    var dpi := if p.dpi > 0 then p.dpi else 96;
    PyIntOfStr(p.width);
    PyIntOfStr(p.height);
    PyIntOfStr(dpi);
    assert Says(all[1][3], dpi);
    forall k | 0 <= k < |names|
      ensures Configured(p, names[k], all[5][k + 1])
    {
      AnswerConfigures(p, names[k]);
    }
  }
}
