/**
  The Annex-B byte stream format of ITU-T H.264 (section B.1): NAL units separated by
  3-byte (00 00 01) or 4-byte (00 00 00 01) start codes.

  The reference is a single left-to-right scan, `Codes`; the agent's incremental splitter
  rescans and trims a buffer instead, and is proved against that scan.
 */
module AnnexB {
  import opened Common

  type Nal = seq<byte>

  /** A start code found at index `at`. */
  datatype Code = Code(at: nat, length: nat) {
    function End(): nat { at + length }
  }

  /** Length of the start code beginning at `i`, or 0 when none begins there. */
  function CodeLength(s: seq<byte>, i: nat): nat {
    if i + 2 >= |s| || s[i] != 0 || s[i + 1] != 0 then 0
    else if s[i + 2] == 1 then 3
    else if i + 3 < |s| && s[i + 2] == 0 && s[i + 3] == 1 then 4
    else 0
  }

  ghost predicate NoCode(s: seq<byte>, lo: nat, hi: nat) {
    forall i: nat | lo <= i < hi :: CodeLength(s, i) == 0
  }

  ghost predicate IsCode(s: seq<byte>, c: Code) {
    CodeLength(s, c.at) == c.length && c.length != 0
  }

  /** `d` is the next code after `c`. */
  ghost predicate Follows(s: seq<byte>, c: Code, d: Code) {
    c.End() <= d.at && NoCode(s, c.End(), d.at)
  }

  /** The one-pass scanner: every start code met going right, resuming after each one. */
  function Codes(s: seq<byte>, from: nat): (cs: seq<Code>)
    decreases |s| - from
  {
    if from >= |s| then []
    else
      var n := CodeLength(s, from);
      if n == 0 then Codes(s, from + 1) else [Code(from, n)] + Codes(s, from + n)
  }

  /**
    What the scan finds, said without scanning: codes in order, not overlapping, and no
    code begins in front of the first, in a gap, or behind the last.
   */
  ghost predicate IsCutList(s: seq<byte>, from: nat, cs: seq<Code>) {
    && (forall k | 0 <= k < |cs| :: IsCode(s, cs[k]))
    && (forall j, k | 0 <= j && j + 1 == k < |cs| :: Follows(s, cs[j], cs[k]))
    && (if cs == [] then NoCode(s, from, |s|)
        else from <= cs[0].at && NoCode(s, from, cs[0].at) && NoCode(s, cs[|cs| - 1].End(), |s|))
  }

  lemma ConsCuts(s: seq<byte>, from: nat, c: Code, cs: seq<Code>)
    requires from <= c.at && NoCode(s, from, c.at) && IsCode(s, c)
    ensures IsCutList(s, c.End(), cs) <==> IsCutList(s, from, [c] + cs)
  {
    var ds := [c] + cs;
    if IsCutList(s, c.End(), cs) {
      forall j, k | 0 <= j && j + 1 == k < |ds|
        ensures Follows(s, ds[j], ds[k])
      {
        assert j > 0 ==> Follows(s, cs[j - 1], cs[k - 1]);
      }
    }
    if IsCutList(s, from, ds) {
      forall k | 0 <= k < |cs|
        ensures IsCode(s, cs[k])
      {
        assert IsCode(s, ds[k + 1]);
      }
      forall j, k | 0 <= j && j + 1 == k < |cs|
        ensures Follows(s, cs[j], cs[k])
      {
        assert Follows(s, ds[j + 1], ds[k + 1]);
      }
      assert cs != [] ==> Follows(s, ds[0], ds[1]);
    }
  }

  lemma SkipCuts(s: seq<byte>, from: nat, cs: seq<Code>)
    requires from < |s| && CodeLength(s, from) == 0
    ensures IsCutList(s, from + 1, cs) <==> IsCutList(s, from, cs)
  {
    if IsCutList(s, from, cs) && cs != [] {
      assert IsCode(s, cs[0]);
    }
  }

  /** The cuts of a byte string are unique: the declarative reading determines the scan. */
  lemma {:induction false} CutsUnique(s: seq<byte>, from: nat, cs: seq<Code>)
    ensures IsCutList(s, from, cs) <==> cs == Codes(s, from)
    decreases |s| - from
  {
    if from >= |s| {
      assert IsCutList(s, from, cs) && cs != [] ==> IsCode(s, cs[0]);
    } else if CodeLength(s, from) == 0 {
      SkipCuts(s, from, cs);
      CutsUnique(s, from + 1, cs);
    } else {
      var c := Code(from, CodeLength(s, from));
      if cs != [] && cs[0] == c {
        assert cs == [c] + cs[1..];
        ConsCuts(s, from, c, cs[1..]);
        CutsUnique(s, c.End(), cs[1..]);
        assert Codes(s, from)[1..] == Codes(s, c.End());
      } else if IsCutList(s, from, cs) {
        FirstCut(s, from, cs);
      }
    }
  }

  lemma FirstCut(s: seq<byte>, from: nat, cs: seq<Code>)
    requires from < |s| && CodeLength(s, from) != 0 && IsCutList(s, from, cs)
    ensures cs != [] && cs[0] == Code(from, CodeLength(s, from))
  {
    assert cs != [] ==> IsCode(s, cs[0]);
  }

  lemma CodesAreCuts(s: seq<byte>, from: nat)
    ensures IsCutList(s, from, Codes(s, from))
  {
    CutsUnique(s, from, Codes(s, from));
  }

  /** Bounds that every use of a cut list needs. */
  lemma {:induction false} CutBounds(s: seq<byte>, from: nat, cs: seq<Code>, j: nat, k: nat)
    requires IsCutList(s, from, cs) && j <= k < |cs|
    ensures cs[j].at <= cs[k].at && cs[k].End() <= |s|
    ensures j < k ==> cs[j].End() <= cs[k].at
    decreases k
  {
    assert IsCode(s, cs[k]);
    if j < k {
      CutBounds(s, from, cs, j, k - 1);
      assert Follows(s, cs[k - 1], cs[k]);
    }
  }

  lemma CodeBounds(s: seq<byte>, j: nat, k: nat)
    requires j <= k < |Codes(s, 0)|
    ensures var cs := Codes(s, 0);
            && cs[j].at <= cs[k].at && cs[k].End() <= |s|
            && (j < k ==> cs[j].End() <= cs[k].at)
            && IsCode(s, cs[j])
  {
    CodesAreCuts(s, 0);
    CutBounds(s, 0, Codes(s, 0), j, k);
  }

  /** The NAL units enclosed between consecutive start codes. */
  function Nals(s: seq<byte>): (ns: seq<Nal>) {
    var cs := Codes(s, 0);
    if cs == [] then [] else
      seq(|cs| - 1, k requires 0 <= k < |cs| - 1 => Between(s, k))
  }

  function Between(s: seq<byte>, k: nat): Nal
    requires k + 1 < |Codes(s, 0)|
  {
    var cs := Codes(s, 0);
    CodeBounds(s, k, k + 1);
    s[cs[k].End()..cs[k + 1].at]
  }

  /** Where the scan stands after handing out k units: at the k-th code, or at the start. */
  function Base(s: seq<byte>, k: nat): (b: nat)
    requires k == 0 || k < |Codes(s, 0)|
    ensures b <= |s|
  {
    if k == 0 then 0 else
      CodeBounds(s, k, k);
      Codes(s, 0)[k].at
  }

  /** What stays behind: everything from the last start code on, or all of it before a second code. */
  function Rest(s: seq<byte>): seq<byte> {
    if |Codes(s, 0)| < 2 then s else s[Base(s, |Codes(s, 0)| - 1)..]
  }

  // ---- Incremental splitting agrees with splitting everything at once ----

  /** More data never changes a code already found: a code cut by a read is neither missed nor misread. */
  lemma {:induction false} CodesExtend(s: seq<byte>, d: seq<byte>, from: nat)
    ensures Codes(s, from) <= Codes(s + d, from)
    decreases |s| - from
  {
    if from < |s| {
      var n := CodeLength(s, from);
      if n != 0 {
        assert CodeLength(s + d, from) == n;
        CodesExtend(s, d, from + n);
      } else if CodeLength(s + d, from) == 0 {
        CodesExtend(s, d, from + 1);
      } else {
        assert from + 3 >= |s|;
        TooShort(s, from);
      }
    }
  }

  lemma {:induction false} TooShort(s: seq<byte>, from: nat)
    requires from + 3 >= |s| && CodeLength(s, from) == 0
    ensures Codes(s, from) == []
    decreases |s| - from
  {
    if from < |s| {
      TooShort(s, from + 1);
    }
  }

  function Shift(cs: seq<Code>, b: nat): seq<Code> {
    seq(|cs|, k requires 0 <= k < |cs| => Code(cs[k].at + b, cs[k].length))
  }

  lemma {:induction false} CodesOfSuffix(t: seq<byte>, b: nat, from: nat)
    requires b <= from && b <= |t|
    ensures Codes(t, from) == Shift(Codes(t[b..], from - b), b)
    decreases |t| - from
  {
    if from < |t| {
      var n := CodeLength(t, from);
      assert CodeLength(t[b..], from - b) == n;
      CodesOfSuffix(t, b, from + if n == 0 then 1 else n);
      if n != 0 {
        var cs := Codes(t[b..], from + n - b);
        assert Codes(t[b..], from - b) == [Code(from - b, n)] + cs;
        assert Shift([Code(from - b, n)] + cs, b) == [Code(from, n)] + Shift(cs, b);
      }
    }
  }

  lemma {:induction false} CodesResume(t: seq<byte>, from: nat, m: nat)
    requires m < |Codes(t, from)|
    ensures Codes(t, Codes(t, from)[m].at) == Codes(t, from)[m..]
    decreases |t| - from, m
  {
    var n := CodeLength(t, from);
    if n == 0 {
      CodesResume(t, from + 1, m);
    } else if m > 0 {
      CodesResume(t, from + n, m - 1);
      assert Codes(t, from)[m..] == Codes(t, from + n)[m - 1..];
    }
  }

  /** The codes from the m-th on, seen from the m-th. */
  lemma CodeOfSuffix(t: seq<byte>, m: nat, k: nat)
    requires m + k < |Codes(t, 0)|
    ensures var b := Codes(t, 0)[m].at;
            && b <= |t|
            && |Codes(t[b..], 0)| == |Codes(t, 0)| - m
            && Codes(t, 0)[m + k] == Code(Codes(t[b..], 0)[k].at + b, Codes(t[b..], 0)[k].length)
  {
    var cs := Codes(t, 0);
    var b := cs[m].at;
    CodeBounds(t, m, m + k);
    CodesResume(t, 0, m);
    CodesOfSuffix(t, b, b);
    var ds := Codes(t[b..], 0);
    assert cs[m..] == Shift(ds, b);
    assert cs[m..][k] == Shift(ds, b)[k];
  }

  lemma BetweenOfSuffix(t: seq<byte>, m: nat, k: nat)
    requires m + k + 1 < |Codes(t, 0)|
    ensures var b := Codes(t, 0)[m].at;
            && b <= |t|
            && k + 1 < |Codes(t[b..], 0)|
            && Between(t[b..], k) == Between(t, m + k)
  {
    var cs := Codes(t, 0);
    var b := cs[m].at;
    CodeOfSuffix(t, m, k);
    CodeOfSuffix(t, m, k + 1);
    CodeBounds(t, m, m + k);
    CodeBounds(t, m + k, m + k + 1);
    SliceOfSuffix(t, b, cs[m + k].End(), cs[m + k + 1].at);
  }

  lemma SliceOfSuffix(t: seq<byte>, b: nat, lo: nat, hi: nat)
    requires b <= lo <= hi <= |t|
    ensures t[b..][lo - b..hi - b] == t[lo..hi]
  {
  }

  /** Restarting at the m-th start code loses exactly the first m units and nothing else. */
  lemma NalsOfSuffix(t: seq<byte>, m: nat)
    requires m < |Codes(t, 0)|
    ensures var b := Codes(t, 0)[m].at;
            b <= |t| && m <= |Nals(t)| && Nals(t[b..]) == Nals(t)[m..]
  {
    var b := Codes(t, 0)[m].at;
    CodeOfSuffix(t, m, 0);
    var u, v := Nals(t[b..]), Nals(t)[m..];
    assert |u| == |v|;
    forall k: nat | k < |u|
      ensures u[k] == v[k]
    {
      BetweenOfSuffix(t, m, k);
    }
  }

  lemma RestOfSuffix(t: seq<byte>, m: nat, b: nat)
    requires m < |Codes(t, 0)| && b == Codes(t, 0)[m].at && b <= |t|
    ensures Rest(t[b..]) == if m + 1 < |Codes(t, 0)| then Rest(t) else t[b..]
  {
    var n := |Codes(t, 0)| - 1 - m;
    CodeOfSuffix(t, m, n);
    if n > 0 {
      RestInside(t, t[b..], m, n, b);
    }
  }

  lemma RestInside(t: seq<byte>, u: seq<byte>, m: nat, n: nat, b: nat)
    requires b <= |t| && u == t[b..] && n > 0
    requires |Codes(t, 0)| == m + n + 1 && |Codes(u, 0)| == n + 1
    requires Codes(t, 0)[m + n].at == Codes(u, 0)[n].at + b
    ensures Rest(u) == Rest(t)
  {
    DropTwice(t, b, Base(u, n));
  }

  lemma DropTwice(t: seq<byte>, b: nat, c: nat)
    requires b + c <= |t|
    ensures t[b..][c..] == t[b + c..]
  {
  }

  lemma BetweenOfPrefix(s: seq<byte>, d: seq<byte>, k: nat)
    requires k + 1 < |Codes(s, 0)|
    ensures k + 1 < |Codes(s + d, 0)| && Between(s + d, k) == Between(s, k)
  {
    CodesExtend(s, d, 0);
    CodeBounds(s, k, k + 1);
  }

  lemma NalsOfPrefix(s: seq<byte>, d: seq<byte>)
    ensures Nals(s) <= Nals(s + d)
  {
    CodesExtend(s, d, 0);
    forall k: nat | k < |Nals(s)|
      ensures k < |Nals(s + d)| && Nals(s + d)[k] == Nals(s)[k]
    {
      BetweenOfPrefix(s, d, k);
    }
  }

  lemma CodeStays(s: seq<byte>, d: seq<byte>, m: nat)
    requires m < |Codes(s, 0)|
    ensures m < |Codes(s + d, 0)| && Codes(s + d, 0)[m] == Codes(s, 0)[m]
  {
    CodesExtend(s, d, 0);
  }

  lemma DropOfConcat(s: seq<byte>, d: seq<byte>, k: nat)
    requires k <= |s|
    ensures (s + d)[k..] == s[k..] + d
  {
  }

  /** Feeding `d` to a splitter that has consumed `s` gives what one scan of `s + d` gives. */
  lemma SplitIncrementally(s: seq<byte>, d: seq<byte>)
    ensures Nals(s + d) == Nals(s) + Nals(Rest(s) + d)
    ensures Rest(s + d) == Rest(Rest(s) + d)
  {
    var m := |Codes(s, 0)| - 1;
    if m < 1 {
      assert Nals(s) == [] && Rest(s) == s;
    } else {
      CodeStays(s, d, m);
      var b := Base(s, m);
      DropOfConcat(s, d, b);
      SplitAtCode(s, d, s + d, m, b, s[b..] + d);
      assert Rest(s) == s[b..];
    }
  }

  lemma SplitAtCode(s: seq<byte>, d: seq<byte>, t: seq<byte>, m: nat, b: nat, u: seq<byte>)
    requires t == s + d && 1 <= m == |Codes(s, 0)| - 1 && m < |Codes(t, 0)|
    requires b == Codes(t, 0)[m].at <= |t| && u == t[b..]
    ensures Nals(t) == Nals(s) + Nals(u) && Rest(t) == Rest(u)
  {
    NalsOfSuffix(t, m);
    NalsOfPrefix(s, d);
    PrefixAndRest(Nals(s), Nals(t));
    RestOfSuffix(t, m, b);
    assert m + 1 == |Codes(t, 0)| ==> Rest(t) == t[b..];
  }

  lemma PrefixAndRest<T>(a: seq<T>, b: seq<T>)
    requires a <= b
    ensures b == a + b[|a|..]
  {
  }

  // ---- Nothing is lost ----

  /** The bytes of a start code. */
  function CodeBytes(n: nat): seq<byte> {
    if n == 3 then [0, 0, 1] else [0, 0, 0, 1]
  }

  /** `units[k]` preceded by the start code that introduced it, one after the other. */
  function WithCodes(cs: seq<Code>, units: seq<Nal>): seq<byte>
    requires |units| <= |cs|
  {
    if units == [] then []
    else CodeBytes(cs[0].length) + units[0] + WithCodes(cs[1..], units[1..])
  }

  lemma BytesOfCode(s: seq<byte>, c: Code)
    requires IsCode(s, c)
    ensures c.End() <= |s| && s[c.at..c.End()] == CodeBytes(c.length)
  {
  }

  /** From the k-th code up to the next one: that code, then the k-th unit. */
  lemma OneUnit(s: seq<byte>, k: nat)
    requires k + 1 < |Codes(s, 0)|
    ensures var cs := Codes(s, 0);
            && cs[k].at <= cs[k + 1].at <= |s|
            && s[cs[k].at..] == CodeBytes(cs[k].length) + Nals(s)[k] + s[cs[k + 1].at..]
  {
    var cs := Codes(s, 0);
    CodeBounds(s, k, k + 1);
    BytesOfCode(s, cs[k]);
    ThreePieces(s, cs[k].at, cs[k].End(), cs[k + 1].at);
  }

  lemma TwoPieces(s: seq<byte>, a: nat)
    requires a <= |s|
    ensures s == s[..a] + s[a..]
  {
  }

  lemma ThreePieces(s: seq<byte>, a: nat, b: nat, c: nat)
    requires a <= b <= c <= |s|
    ensures s[a..] == s[a..b] + s[b..c] + s[c..]
  {
  }

  lemma WithCodesStep(cs: seq<Code>, ns: seq<Nal>, cs': seq<Code>, ns': seq<Nal>)
    requires 0 < |ns| <= |cs| && cs' == cs[1..] && ns' == ns[1..]
    ensures WithCodes(cs, ns) == CodeBytes(cs[0].length) + ns[0] + WithCodes(cs', ns')
  {
  }

  lemma RegroupFour(a: seq<byte>, b: seq<byte>, c: seq<byte>, d: seq<byte>)
    ensures a + b + (c + d) == a + b + c + d
  {
  }

  lemma {:induction false} LosslessFrom(s: seq<byte>, cs: seq<Code>, ns: seq<Nal>, k: nat)
    requires cs == Codes(s, 0) && ns == Nals(s) && k < |cs| == |ns| + 1
    ensures cs[k].at <= |s| && cs[|cs| - 1].at <= |s|
    ensures s[cs[k].at..] == WithCodes(cs[k..], ns[k..]) + s[cs[|cs| - 1].at..]
    decreases |cs| - k
  {
    CodeBounds(s, k, |cs| - 1);
    if k + 1 < |cs| {
      LosslessFrom(s, cs, ns, k + 1);
      OneUnit(s, k);
      WithCodesStep(cs[k..], ns[k..], cs[k + 1..], ns[k + 1..]);
      RegroupFour(CodeBytes(cs[k].length), ns[k], WithCodes(cs[k + 1..], ns[k + 1..]), s[cs[|cs| - 1].at..]);
    } else {
      assert ns[k..] == [];
    }
  }

  /** Leading bytes, then each unit behind its code, then the remainder: exactly the input. */
  lemma SplitIsLossless(s: seq<byte>)
    ensures var cs, ns := Codes(s, 0), Nals(s);
            if |cs| < 2 then ns == [] && Rest(s) == s
            else |cs| == |ns| + 1 && cs[0].at <= |s| && s == s[..cs[0].at] + WithCodes(cs, ns) + Rest(s)
  {
    var cs, ns := Codes(s, 0), Nals(s);
    if |cs| >= 2 {
      LosslessFrom(s, cs, ns, 0);
      assert cs[0..] == cs && ns[0..] == ns;
      TwoPieces(s, cs[0].at);
    }
  }

  // ---- The printer ----

  /** Annex-B form with 4-byte start codes. */
  function Serialise(units: seq<Nal>): seq<byte> {
    if units == [] then [] else [0, 0, 0, 1] + units[0] + Serialise(units[1..])
  }

  lemma {:induction false} SerialiseAppend(units: seq<Nal>, x: Nal)
    ensures Serialise(units + [x]) == Serialise(units) + [0, 0, 0, 1] + x
  {
    if units == [] {
      assert ([x])[1..] == [];
    } else {
      assert (units + [x])[0] == units[0] && (units + [x])[1..] == units[1..] + [x];
      SerialiseAppend(units[1..], x);
    }
  }

  /** The NAL payload constraint of section 7.4.1 that matters here: no 00 00 01 inside. */
  ghost predicate Clean(n: Nal) {
    forall i | 0 <= i < |n| - 2 :: !(n[i] == 0 && n[i + 1] == 0 && n[i + 2] == 1)
  }

  /** Whatever the input, a unit cut out by the scan contains no start code. */
  lemma EmittedClean(s: seq<byte>)
    ensures forall n | n in Nals(s) :: Clean(n)
  {
    var cs := Codes(s, 0);
    CodesAreCuts(s, 0);
    forall k | 0 <= k < |Nals(s)|
      ensures Clean(Nals(s)[k])
    {
      CodeBounds(s, k, k + 1);
      var n := Between(s, k);
      forall i | 0 <= i < |n| - 2
        ensures !(n[i] == 0 && n[i + 1] == 0 && n[i + 2] == 1)
      {
        assert CodeLength(s, cs[k].End() + i) == 0;
      }
    }
  }

  lemma {:induction false} NoCodeInside(from: nat, to: nat, s: seq<byte>)
    requires from <= to <= |s| && Clean(s[from..to])
    requires to == |s| || (to + 3 < |s| && s[to..to + 4] == [0, 0, 0, 1])
    ensures NoCode(s, from, to)
  {
    var n := s[from..to];
    if to < |s| {
      var tail := s[to..to + 4];
      assert s[to] == tail[0] && s[to + 1] == tail[1] && s[to + 2] == tail[2] && s[to + 3] == tail[3];
    }
    forall i: nat | from <= i < to
      ensures CodeLength(s, i) == 0
    {
      if i + 2 < to {
        assert n[i - from] == s[i] && n[i - from + 1] == s[i + 1] && n[i - from + 2] == s[i + 2];
      }
      if i + 3 < to {
        assert n[i - from + 1] == s[i + 1] && n[i - from + 2] == s[i + 2] && n[i - from + 3] == s[i + 3];
      }
    }
  }

  /** The first code, and the second one if there is one, of a serialised list of clean units. */
  lemma CodesOfSerialised(units: seq<Nal>)
    requires units != [] && AllClean(units)
    ensures var t := Serialise(units);
            && 0 < |Codes(t, 0)| && Codes(t, 0)[0] == Code(0, 4)
            && (if |units| == 1 then |Codes(t, 0)| == 1
                else |Codes(t, 0)| >= 2 && Codes(t, 0)[1] == Code(4 + |units[0]|, 4))
  {
    var t := Serialise(units);
    var to := 4 + |units[0]|;
    assert CodeLength(t, 0) == 4;
    assert Codes(t, 0) == [Code(0, 4)] + Codes(t, 4);
    assert t[4..to] == units[0];
    if |units| > 1 {
      assert t[to..] == Serialise(units[1..]);
      assert t[to..to + 4] == [0, 0, 0, 1];
    } else {
      assert Serialise(units[1..]) == [];
    }
    NoCodeInside(4, to, t);
    SkipGap(t, 4, to);
    if |units| > 1 {
      assert t[to] == t[to..to + 4][0] && t[to + 1] == t[to..to + 4][1];
      assert t[to + 2] == t[to..to + 4][2] && t[to + 3] == t[to..to + 4][3];
      assert CodeLength(t, to) == 4;
    }
  }

  lemma {:induction false} SkipGap(s: seq<byte>, from: nat, to: nat)
    requires from <= to <= |s| && NoCode(s, from, to)
    ensures Codes(s, from) == Codes(s, to)
    decreases |s| - from
  {
    if from < to {
      SkipGap(s, from + 1, to);
    }
  }

  ghost predicate AllClean(units: seq<Nal>) {
    forall n | n in units :: Clean(n)
  }

  /** What a reader of `Serialise(units)` must hold for the printer to be undone. */
  ghost predicate ComesBack(units: seq<Nal>)
    requires units != []
  {
    && Nals(Serialise(units)) == units[..|units| - 1]
    && Rest(Serialise(units)) == [0, 0, 0, 1] + units[|units| - 1]
  }

  lemma {:induction false} RoundTripOfClean(units: seq<Nal>)
    requires units != [] && AllClean(units)
    ensures ComesBack(units)
    decreases |units|
  {
    var t, tail := Serialise(units), units[1..];
    CodesOfSerialised(units);
    if |units| == 1 {
      assert Serialise(tail) == [];
    } else {
      var b := 4 + |units[0]|;
      RoundTripOfClean(tail);
      assert t[b..] == Serialise(tail);
      NalsOfSuffix(t, 1);
      RestOfSuffix(t, 1, b);
      assert Nals(t)[0] == t[4..b] == units[0];
      assert Nals(t) == [units[0]] + Nals(t)[1..];
      assert units[..|units| - 1] == [units[0]] + tail[..|tail| - 1];
      CodeOfSuffix(t, 1, 0);
      CodesOfSerialised(tail);
    }
  }

  lemma CleanOfRoundTrip(units: seq<Nal>)
    requires units != [] && ComesBack(units)
    ensures AllClean(units)
  {
    EmittedClean(Serialise(units));
    RestHasOneCode(Serialise(units), units[|units| - 1]);
    forall n | n in units ensures Clean(n) {
      assert n in units[..|units| - 1] || n == units[|units| - 1];
    }
  }

  /**
    Printing and splitting are inverse exactly on clean units: all units but the last come
    back, the last one waits behind its code - whether units are empty or end in zeros.
   */
  lemma SerialiseRoundTrip(units: seq<Nal>)
    requires units != []
    ensures ComesBack(units) <==> AllClean(units)
  {
    if AllClean(units) {
      RoundTripOfClean(units);
    }
    if ComesBack(units) {
      CleanOfRoundTrip(units);
    }
  }

  lemma RestHasOneCode(s: seq<byte>, last: Nal)
    requires Rest(s) == [0, 0, 0, 1] + last
    ensures Clean(last)
  {
    var cs := Codes(s, 0);
    var r := Rest(s);
    if |cs| >= 2 {
      CodeBounds(s, |cs| - 1, |cs| - 1);
      CodesResume(s, 0, |cs| - 1);
      CodesOfSuffix(s, cs[|cs| - 1].at, cs[|cs| - 1].at);
      assert |Codes(r, 0)| == |cs[|cs| - 1..]| == 1;
    }
    assert CodeLength(r, 0) == 4;
    assert Codes(r, 0) == [Code(0, 4)] + Codes(r, 4);
    CodesAreCuts(r, 4);
    assert Codes(r, 4) == [];
    forall i | 0 <= i < |last| - 2
      ensures !(last[i] == 0 && last[i + 1] == 0 && last[i + 2] == 1)
    {
      assert CodeLength(r, 4 + i) == 0;
      assert r[4 + i] == last[i] && r[5 + i] == last[i + 1] && r[6 + i] == last[i + 2];
    }
  }

  // ---- The agent's splitter ----

  /** Keeps the bytes of the unit still arriving. */
  class NalSplitter {
    var buffer: seq<byte>

    constructor ()
      ensures buffer == []
    {
      buffer := [];
    }

    /** Leftmost start code at or after `from`, or -1. */
    method FindStartCode(from: nat) returns (at: int, codeLength: nat)
      ensures at < 0 ==> at == -1 && NoCode(buffer, from, |buffer|)
      ensures at >= 0 ==> from <= at < |buffer| && codeLength == CodeLength(buffer, at) != 0 && NoCode(buffer, from, at)
    {
      var i := from;
      while i + 2 < |buffer|
        invariant from <= i
        invariant NoCode(buffer, from, i)
      {
        if buffer[i] == 0 && buffer[i + 1] == 0 {
          if buffer[i + 2] == 1 {
            return i, 3;
          }
          if i + 3 < |buffer| && buffer[i + 2] == 0 && buffer[i + 3] == 1 {
            return i, 4;
          }
        }
        i := i + 1;
      }
      return -1, 0;
    }

    /** Adds `data`, then repeatedly cuts the first complete unit off the front of the buffer. */
    method Append(data: seq<byte>) returns (results: seq<Nal>)
      modifies this
      ensures results == Nals(old(buffer) + data)
      ensures buffer == Rest(old(buffer) + data)
    {
      ghost var total := buffer + data;
      buffer := buffer + data;
      results := [];
      while true
        invariant Trimmed(total, results, buffer)
        decreases |Nals(total)| - |results|
      {
        var firstStart, firstLen := FindStartCode(0);
        if firstStart < 0 {
          NoFirst(total, results, buffer);
          break;
        }
        var searchFrom := firstStart + firstLen;
        FirstFound(total, results, buffer, firstStart, firstLen);
        var secondStart, secondLen := FindStartCode(searchFrom);
        if secondStart < 0 {
          NoSecond(total, results, buffer, searchFrom);
          break;
        }
        SecondFound(total, results, buffer, searchFrom, secondStart);
        results := results + [buffer[searchFrom..secondStart]];
        buffer := buffer[secondStart..];
      }
    }
  }

  /** Loop state of `Append`: some units handed out, the buffer trimmed to where the scan stands. */
  ghost predicate Trimmed(total: seq<byte>, results: seq<Nal>, buffer: seq<byte>) {
    && results <= Nals(total)
    && buffer == From(total, Base(total, |results|))
  }

  function From(s: seq<byte>, b: nat): seq<byte>
    requires b <= |s|
  {
    if b == 0 then s else s[b..]
  }

  lemma NoCodeShift(total: seq<byte>, buffer: seq<byte>, base: nat, lo: nat, hi: nat)
    requires base <= |total| && buffer == From(total, base)
    requires NoCode(buffer, lo, hi)
    ensures NoCode(total, base + lo, base + hi)
  {
    forall i: nat | base + lo <= i < base + hi
      ensures CodeLength(total, i) == 0
    {
      assert CodeLength(buffer, i - base) == 0;
    }
  }

  lemma NoFirst(total: seq<byte>, results: seq<Nal>, buffer: seq<byte>)
    requires Trimmed(total, results, buffer) && NoCode(buffer, 0, |buffer|)
    ensures results == Nals(total) && buffer == Rest(total)
  {
    var k := |results|;
    NoCodeShift(total, buffer, Base(total, k), 0, |buffer|);
    if k < |Codes(total, 0)| {
      CodeBounds(total, k, k);
      CodesAreCuts(total, 0);
    }
  }

  /** The first code in the buffer is the code the scan stands at. */
  lemma FirstFound(total: seq<byte>, results: seq<Nal>, buffer: seq<byte>, first: nat, firstLen: nat)
    requires Trimmed(total, results, buffer)
    requires firstLen == CodeLength(buffer, first) != 0 && NoCode(buffer, 0, first)
    ensures var k := |results|;
            && k < |Codes(total, 0)|
            && Codes(total, 0)[k] == Code(Base(total, k) + first, firstLen)
  {
    var k := |results|;
    if k == 0 {
      SkipGap(total, 0, first);
    } else {
      CodeBounds(total, k, k);
      FrontOfSuffix(total, buffer, Base(total, k));
    }
  }

  lemma FrontOfSuffix(total: seq<byte>, buffer: seq<byte>, base: nat)
    requires base <= |total| && buffer == From(total, base)
    ensures CodeLength(buffer, 0) == CodeLength(total, base)
  {
  }

  lemma NoSecond(total: seq<byte>, results: seq<Nal>, buffer: seq<byte>, from: nat)
    requires Trimmed(total, results, buffer) && |results| < |Codes(total, 0)|
    requires Codes(total, 0)[|results|].End() == Base(total, |results|) + from
    requires NoCode(buffer, from, |buffer|)
    ensures results == Nals(total) && buffer == Rest(total)
  {
    var k := |results|;
    if k + 1 < |Codes(total, 0)| {
      CodeBounds(total, k, k + 1);
      CodeBounds(total, k + 1, k + 1);
    }
    NoCodeShift(total, buffer, Base(total, k), from, |buffer|);
  }

  lemma SecondFound(total: seq<byte>, results: seq<Nal>, buffer: seq<byte>, from: nat, second: nat)
    requires Trimmed(total, results, buffer) && |results| < |Codes(total, 0)|
    requires Codes(total, 0)[|results|].End() == Base(total, |results|) + from
    requires 0 < from <= second < |buffer| && CodeLength(buffer, second) != 0 && NoCode(buffer, from, second)
    ensures |results| < |Nals(total)|
    ensures Trimmed(total, results + [buffer[from..second]], buffer[second..])
  {
    var k := |results|;
    var base := Base(total, k);
    NextCode(total, buffer, base, k, from, second);
    SameSlices(total, buffer, base, from, second);
    NextTrimmed(total, results, buffer[from..second], buffer[second..], base + second);
  }

  lemma NextTrimmed(total: seq<byte>, results: seq<Nal>, unit: Nal, rest: seq<byte>, b: nat)
    requires results <= Nals(total) && |results| < |Nals(total)| && Nals(total)[|results|] == unit
    requires Base(total, |results| + 1) == b && rest == From(total, b)
    ensures Trimmed(total, results + [unit], rest)
  {
    PrefixGrows(results, Nals(total));
  }

  lemma PrefixGrows<T>(a: seq<T>, b: seq<T>)
    requires a <= b && |a| < |b|
    ensures a + [b[|a|]] <= b
  {
  }

  lemma SameSlices(total: seq<byte>, buffer: seq<byte>, base: nat, from: nat, second: nat)
    requires base <= |total| && buffer == From(total, base)
    requires 0 < from <= second <= |buffer|
    ensures buffer[from..second] == total[base + from..base + second]
    ensures buffer[second..] == From(total, base + second)
  {
  }

  lemma NextCode(total: seq<byte>, buffer: seq<byte>, base: nat, k: nat, from: nat, second: nat)
    requires base <= |total| && buffer == From(total, base)
    requires from <= second < |buffer| && CodeLength(buffer, second) != 0 && NoCode(buffer, from, second)
    requires k < |Codes(total, 0)| && base + from == Codes(total, 0)[k].End()
    ensures k + 1 < |Codes(total, 0)| && Codes(total, 0)[k + 1].at == base + second
  {
    var cs := Codes(total, 0);
    CodesAreCuts(total, 0);
    assert CodeLength(total, base + second) != 0;
    NoCodeShift(total, buffer, base, from, second);
    if k + 1 < |cs| {
      assert IsCode(total, cs[k + 1]) && Follows(total, cs[k], cs[k + 1]);
    }
  }
}
