/**
  The agent's video path: NAL units are collected into access units, which are printed in
  Annex-B form and handed to the peer connection one by one.

  The boundary rule is the program's own: a new unit opens only at a slice whose
  first_mb_in_slice is 0, once the pending unit holds picture data.
 */
module AccessUnits {
  import opened Common
  import opened AnnexB

  // ---- Classifying a NAL unit (H.264 sections 7.3.1 and 7.3.3) ----

  /** nal_unit_type, the low five bits of the header byte. */
  function NalType(nal: Nal): nat
    requires nal != []
  {
    nal[0] % 32
  }

  predicate IsVcl(nal: Nal) {
    nal != [] && 1 <= NalType(nal) <= 5
  }

  /** Top bit of the byte behind the header. */
  predicate StartsPicture(nal: Nal) {
    IsVcl(nal) && |nal| > 1 && nal[1] >= 128
  }

  // ---- Grouping ----

  /** Units waiting, whether picture data is among them, and the access units closed so far. */
  datatype Assembly = Assembly(pending: seq<Nal>, hasVcl: bool, closed: seq<seq<Nal>>)

  const EMPTY := Assembly([], false, [])

  function Close(a: Assembly): Assembly {
    if a.pending == [] then a else Assembly([], false, a.closed + [a.pending])
  }

  function Take(a: Assembly, nal: Nal): Assembly {
    if nal == [] then a
    else
      var b := if StartsPicture(nal) && a.hasVcl then Close(a) else a;
      Assembly(b.pending + [nal], b.hasVcl || IsVcl(nal), b.closed)
  }

  function TakeAll(a: Assembly, nals: seq<Nal>): Assembly
    decreases |nals|
  {
    if nals == [] then a else TakeAll(Take(a, nals[0]), nals[1..])
  }

  lemma {:induction false} TakeAllConcat(a: Assembly, x: seq<Nal>, y: seq<Nal>)
    ensures TakeAll(a, x + y) == TakeAll(TakeAll(a, x), y)
    decreases |x|
  {
    if x == [] {
      assert x + y == y;
    } else {
      assert (x + y)[0] == x[0] && (x + y)[1..] == x[1..] + y;
      TakeAllConcat(Take(a, x[0]), x[1..], y);
    }
  }

  lemma TakeAllOne(a: Assembly, x: seq<Nal>, n: Nal)
    ensures TakeAll(a, x + [n]) == Take(TakeAll(a, x), n)
  {
    TakeAllConcat(a, x, [n]);
    assert [n][1..] == [];
  }

  // ---- What grouping guarantees ----

  ghost predicate HasVcl(unit: seq<Nal>) {
    exists i | 0 <= i < |unit| :: IsVcl(unit[i])
  }

  /** Every picture-starting slice has no picture data in front of it. */
  ghost predicate PictureFirst(unit: seq<Nal>) {
    forall i, j | 0 <= i < j < |unit| && StartsPicture(unit[j]) :: !IsVcl(unit[i])
  }

  /** So a unit holds at most one picture-starting slice. */
  lemma OnePictureAtMost(unit: seq<Nal>, i: nat, j: nat)
    requires PictureFirst(unit) && i < |unit| && j < |unit|
    requires StartsPicture(unit[i]) && StartsPicture(unit[j])
    ensures i == j
  {
    assert IsVcl(unit[i]) && IsVcl(unit[j]);
  }

  ghost predicate GoodUnit(unit: seq<Nal>) {
    HasVcl(unit) && PictureFirst(unit) && [] !in unit
  }

  ghost predicate GoodAssembly(a: Assembly) {
    && (a.hasVcl <==> HasVcl(a.pending))
    && PictureFirst(a.pending) && [] !in a.pending
    && (forall u | u in a.closed :: GoodUnit(u))
  }

  lemma TakeKeepsGood(a: Assembly, nal: Nal)
    requires GoodAssembly(a)
    ensures GoodAssembly(Take(a, nal))
  {
    if nal != [] {
      var b := if StartsPicture(nal) && a.hasVcl then Close(a) else a;
      assert GoodAssembly(b) && (StartsPicture(nal) ==> !HasVcl(b.pending));
      var p := b.pending + [nal];
      assert IsVcl(nal) ==> IsVcl(p[|p| - 1]);
      forall i | 0 <= i < |b.pending| && IsVcl(b.pending[i]) ensures HasVcl(p) {
        assert p[i] == b.pending[i];
      }
    }
  }

  /** Over every run: the flag is right, and each access unit closed is a proper one. */
  lemma {:induction false} GroupingIsGood(a: Assembly, nals: seq<Nal>)
    requires GoodAssembly(a)
    ensures GoodAssembly(TakeAll(a, nals))
    decreases |nals|
  {
    if nals == [] {
    } else {
      TakeKeepsGood(a, nals[0]);
      GroupingIsGood(Take(a, nals[0]), nals[1..]);
    }
  }

  function NonEmpty(nals: seq<Nal>): seq<Nal> {
    if nals == [] then []
    else (if nals[0] == [] then [] else [nals[0]]) + NonEmpty(nals[1..])
  }

  /** Everything an assembly has taken in and still accounts for, in order. */
  function Contents(a: Assembly): seq<Nal> {
    Flatten(a.closed) + a.pending
  }

  lemma TakeConserves(a: Assembly, nal: Nal)
    ensures Contents(Take(a, nal)) == Contents(a) + (if nal == [] then [] else [nal])
  {
    FlattenAppend(a.closed, a.pending);
  }

  /** No unit is lost, duplicated or reordered; only empty ones are skipped. */
  lemma {:induction false} GroupingConserves(a: Assembly, nals: seq<Nal>)
    ensures Contents(TakeAll(a, nals)) == Contents(a) + NonEmpty(nals)
    decreases |nals|
  {
    hide Take, Contents;
    if nals == [] {
      assert Contents(a) + [] == Contents(a);
    } else {
      TakeConserves(a, nals[0]);
      GroupingConserves(Take(a, nals[0]), nals[1..]);
      Regroup(Contents(a), if nals[0] == [] then [] else [nals[0]], NonEmpty(nals[1..]));
    }
  }

  // ---- It is the only such grouping ----

  /** The access units closed and the one pending, if any. */
  function Parts(a: Assembly): seq<seq<Nal>> {
    a.closed + if a.pending == [] then [] else [a.pending]
  }

  /**
    A cutting of units into access units, said without grouping: nothing is lost, no part is
    empty, a new part begins only at a slice that starts a picture and only once the part before
    holds picture data, and no part starts a picture behind picture data.
   */
  ghost predicate IsGrouping(units: seq<Nal>, parts: seq<seq<Nal>>) {
    && Flatten(parts) == units
    && (forall k | 0 <= k < |parts| :: parts[k] != [] && PictureFirst(parts[k]))
    && (forall k | 0 < k < |parts| :: StartsPicture(parts[k][0]))
    && (forall k | 0 <= k < |parts| - 1 :: HasVcl(parts[k]))
  }

  /** One more unit: a new part, or the end of the last one. */
  ghost function Extended(parts: seq<seq<Nal>>, n: Nal): seq<seq<Nal>> {
    if parts == [] then [[n]]
    else
      var front, last := parts[..|parts| - 1], parts[|parts| - 1];
      if StartsPicture(n) && HasVcl(last) then parts + [[n]] else front + [last + [n]]
  }

  lemma PictureFirstAppend(part: seq<Nal>, n: Nal)
    ensures PictureFirst(part + [n]) <==> PictureFirst(part) && (StartsPicture(n) ==> !HasVcl(part))
  {
    var longer := part + [n];
    assert longer[|part|] == n && forall i | 0 <= i < |part| :: longer[i] == part[i];
    if PictureFirst(longer) {
      forall i, j | 0 <= i < j < |part| && StartsPicture(part[j])
        ensures !IsVcl(part[i])
      {
        assert StartsPicture(longer[j]);
      }
    }
  }

  lemma FlattenLast(front: seq<seq<Nal>>, last: seq<Nal>, n: Nal)
    ensures Flatten(front + [last + [n]]) == Flatten(front + [last]) + [n]
  {
    FlattenAppend(front, last);
    FlattenAppend(front, last + [n]);
    Regroup(Flatten(front), last, [n]);
  }

  lemma ExtendedIsGrouping(units: seq<Nal>, parts: seq<seq<Nal>>, n: Nal)
    requires IsGrouping(units, parts)
    ensures IsGrouping(units + [n], Extended(parts, n))
  {
    hide PictureFirst, HasVcl, Flatten;
    PictureFirstAppend([], n);
    NothingYetIn();
    assert [] + [n] == [n];
    FlattenAppend(parts, [n]);
    if parts == [] {
      assert parts + [[n]] == [[n]];
    } else {
      var front, last := parts[..|parts| - 1], parts[|parts| - 1];
      assert parts == front + [last];
      FlattenLast(front, last, n);
      PictureFirstAppend(last, n);
      assert (last + [n])[0] == last[0];
    }
  }

  lemma NothingYetIn()
    ensures PictureFirst([]) && !HasVcl([])
  {
  }

  lemma {:induction false} FlattenedParts(parts: seq<seq<Nal>>)
    requires forall k | 0 <= k < |parts| :: parts[k] != []
    ensures Flatten(parts) == [] <==> parts == []
  {
  }

  lemma LastPartOff(units: seq<Nal>, n: Nal, front: seq<seq<Nal>>)
    requires IsGrouping(units + [n], front + [[n]])
    ensures IsGrouping(units, front) && front + [[n]] == Extended(front, n)
  {
    hide PictureFirst, HasVcl, Flatten, StartsPicture;
    var parts := front + [[n]];
    FlattenAppend(front, [n]);
    LastsAgree(Flatten(front), [], n, units, n);
    assert Flatten(front) + [] == Flatten(front) && [] + [n] == [n];
    assert forall k | 0 <= k < |front| :: parts[k] == front[k];
    if front != [] {
      assert parts[|front|] == [n] && HasVcl(parts[|front| - 1]);
    }
  }

  lemma LastUnitOff(units: seq<Nal>, n: Nal, front: seq<seq<Nal>>, rest: seq<Nal>)
    requires rest != [] && IsGrouping(units + [n], front + [rest + [n]])
    ensures IsGrouping(units, front + [rest]) && front + [rest + [n]] == Extended(front + [rest], n)
  {
    hide PictureFirst, HasVcl, Flatten, StartsPicture;
    var parts, before := front + [rest + [n]], front + [rest];
    FlattenAppend(front, rest + [n]);
    FlattenAppend(front, rest);
    LastsAgree(Flatten(front), rest, n, units, n);
    assert parts[|front|] == rest + [n] && (rest + [n])[0] == rest[0];
    assert forall k | 0 <= k < |front| :: parts[k] == front[k] && before[k] == front[k];
    PictureFirstAppend(rest, n);
    assert before[..|before| - 1] == front;
  }

  /** Taking the last unit off a grouping gives a grouping that the unit extends. */
  lemma Shortened(units: seq<Nal>, n: Nal, parts: seq<seq<Nal>>) returns (before: seq<seq<Nal>>)
    requires IsGrouping(units + [n], parts)
    ensures IsGrouping(units, before) && parts == Extended(before, n)
  {
    FlattenedParts(parts);
    hide PictureFirst, HasVcl, Flatten, StartsPicture, Extended;
    var front, last := parts[..|parts| - 1], parts[|parts| - 1];
    var rest := last[..|last| - 1];
    assert parts == front + [last] && last == rest + [last[|last| - 1]];
    FlattenAppend(front, last);
    LastsAgree(Flatten(front), rest, last[|last| - 1], units, n);
    hide IsGrouping;
    if rest == [] {
      assert last == [n];
      LastPartOff(units, n, front);
      before := front;
    } else {
      LastUnitOff(units, n, front, rest);
      before := front + [rest];
    }
  }

  lemma LastsAgree<T>(a: seq<T>, b: seq<T>, x: T, c: seq<T>, y: T)
    requires a + (b + [x]) == c + [y]
    ensures a + b == c && x == y
  {
    assert a + (b + [x]) == a + b + [x];
    assert (a + b + [x])[..|a + b|] == a + b && (c + [y])[..|c|] == c;
    assert (a + b + [x])[|a + b|] == x && (c + [y])[|c|] == y;
  }

  lemma TakeExtends(a: Assembly, n: Nal)
    requires GoodAssembly(a) && (a.pending == [] ==> a.closed == []) && n != []
    ensures Parts(Take(a, n)) == Extended(Parts(a), n)
    ensures Take(a, n).pending != []
  {
    hide HasVcl, StartsPicture, IsVcl, PictureFirst;
    var parts := Parts(a);
    if a.pending == [] {
      NothingYetIn();
      assert parts == [] && Take(a, n).pending == [n];
      assert a.closed + [[n]] == [[n]];
    } else {
      assert parts[..|parts| - 1] == a.closed && parts[|parts| - 1] == a.pending;
      if StartsPicture(n) && a.hasVcl {
        assert [] + [n] == [n];
      }
    }
  }

  lemma {:induction false} NonEmptyAppend(nals: seq<Nal>, n: Nal)
    ensures NonEmpty(nals + [n]) == NonEmpty(nals) + if n == [] then [] else [n]
  {
    var last := if n == [] then [] else [n];
    if nals == [] {
      assert nals + [n] == [n] && [n][1..] == [];
      assert NonEmpty([n]) == last + [];
    } else {
      assert (nals + [n])[0] == nals[0] && (nals + [n])[1..] == nals[1..] + [n];
      NonEmptyAppend(nals[1..], n);
      Regroup(if nals[0] == [] then [] else [nals[0]], NonEmpty(nals[1..]), last);
    }
  }

  lemma StartOfGrouping(parts: seq<seq<Nal>>)
    ensures IsGrouping([], parts) <==> parts == []
  {
    if IsGrouping([], parts) {
      FlattenedParts(parts);
    }
  }

  /**
    The access units are the only ones of that kind: a cutting of the non-empty units is a
    grouping exactly if it is the one closed and pending, so none is closed too soon or too late.
   */
  lemma {:induction false} GroupingIsTheOnlyOne(nals: seq<Nal>, parts: seq<seq<Nal>>)
    ensures IsGrouping(NonEmpty(nals), parts) <==> parts == Parts(TakeAll(EMPTY, nals))
    ensures TakeAll(EMPTY, nals).pending == [] ==> TakeAll(EMPTY, nals).closed == []
    decreases |nals|
  {
    hide IsGrouping, Take, Parts, HasVcl, PictureFirst;
    if nals == [] {
      StartOfGrouping(parts);
      PartsOfStart();
    } else {
      var front, n := nals[..|nals| - 1], nals[|nals| - 1];
      var a := TakeAll(EMPTY, front);
      assert nals == front + [n];
      TakeAllOne(EMPTY, front, n);
      NonEmptyAppend(front, n);
      GroupingIsTheOnlyOne(front, parts);
      if n == [] {
        TakeNothing(a);
        assert NonEmpty(front) + [] == NonEmpty(front);
      } else {
        GoodFromTheStart(front);
        TakeExtends(a, n);
        GroupingIsTheOnlyOne(front, Parts(a));
        ExtendedIsGrouping(NonEmpty(front), Parts(a), n);
        if IsGrouping(NonEmpty(nals), parts) {
          var before := Shortened(NonEmpty(front), n, parts);
          GroupingIsTheOnlyOne(front, before);
        }
      }
    }
  }

  lemma PartsOfStart()
    ensures Parts(EMPTY) == []
  {
  }

  lemma TakeNothing(a: Assembly)
    ensures Take(a, []) == a
  {
  }

  lemma GoodFromTheStart(nals: seq<Nal>)
    ensures GoodAssembly(TakeAll(EMPTY, nals))
  {
    NothingYetIn();
    GroupingIsGood(EMPTY, nals);
  }

  // ---- The top-bit test against the slice header (sections 7.3.3, 7.4.1 and 9.1) ----

  function ByteBits(b: byte): (r: seq<bool>)
    ensures |r| == 8
  {
    [b >= 128, b % 128 >= 64, b % 64 >= 32, b % 32 >= 16, b % 16 >= 8, b % 8 >= 4, b % 4 >= 2, b % 2 >= 1]
  }

  function Bits(s: seq<byte>): seq<bool> {
    if s == [] then [] else ByteBits(s[0]) + Bits(s[1..])
  }

  /** Payload with emulation prevention bytes (00 00 03) taken out; `zeros` zero bytes precede `p`. */
  function Unescape(p: seq<byte>, zeros: nat): seq<byte> {
    if p == [] then []
    else if zeros >= 2 && p[0] == 3 then Unescape(p[1..], 0)
    else [p[0]] + Unescape(p[1..], if p[0] == 0 then zeros + 1 else 0)
  }

  function LeadingZeros(bits: seq<bool>): nat {
    if bits == [] || bits[0] then 0 else 1 + LeadingZeros(bits[1..])
  }

  function Value(bits: seq<bool>): nat {
    if bits == [] then 0 else 2 * Value(bits[..|bits| - 1]) + (if bits[|bits| - 1] then 1 else 0)
  }

  function Pow2(n: nat): (r: nat)
    ensures r >= 1
    ensures n > 0 ==> r >= 2
  {
    if n == 0 then 1 else 2 * Pow2(n - 1)
  }

  /** ue(v): z zero bits, a one bit, z more bits; None when the bits run out. */
  function DecodeUe(bits: seq<bool>): Option<nat> {
    var z := LeadingZeros(bits);
    if |bits| < 2 * z + 1 then None
    else Some(Pow2(z) - 1 + Value(bits[z + 1..2 * z + 1]))
  }

  /** first_mb_in_slice, the first field of the slice header of slice types 1, 2 and 5. */
  function FirstMbInSlice(nal: Nal): Option<nat>
    requires nal != [] && NalType(nal) in {1, 2, 5}
  {
    DecodeUe(Bits(Unescape(nal[1..], 0)))
  }

  /** The one-bit test decides exactly whether the decoded field is 0. */
  lemma TopBitTest(nal: Nal)
    requires nal != [] && NalType(nal) in {1, 2, 5}
    ensures StartsPicture(nal) <==> FirstMbInSlice(nal) == Some(0)
  {
    var p := Unescape(nal[1..], 0);
    var bits := Bits(p);
    if |nal| == 1 {
      assert p == [] && bits == [];
    } else {
      assert p[0] == nal[1];
      assert bits[0] == (nal[1] >= 128);
      var z := LeadingZeros(bits);
      if nal[1] >= 128 {
        assert z == 0 && bits[1..1] == [];
      } else {
        assert z >= 1 && Pow2(z) >= 2;
      }
    }
  }

  /** Slices and IDR slices are picture data (table 7-1); SEI, parameter sets and delimiters are not. */
  lemma KnownTypes(payload: seq<byte>)
    ensures IsVcl([0x41] + payload) && IsVcl([0x01] + payload) && IsVcl([0x65] + payload)
    ensures !IsVcl([0x06] + payload) && !IsVcl([0x67] + payload) && !IsVcl([0x68] + payload) && !IsVcl([0x09] + payload)
  {
  }

  /** The bits in front of the type do not matter. */
  lemma TypeDecides(a: Nal, b: Nal)
    requires a != [] && b != [] && a[0] % 32 == b[0] % 32
    ensures IsVcl(a) <==> IsVcl(b)
  {
  }

  // ---- Sending ----

  /** What the peer connection does with one access unit. */
  datatype Link = NotConnected | Throws | Delivers

  /** The frames that reach the peer connection when the n-th flush from `n` on meets `link(n)`. */
  function Sent(units: seq<seq<Nal>>, link: nat -> Link, n: nat): seq<seq<byte>> {
    if units == [] then []
    else (if link(n) == Delivers then [Serialise(units[0])] else []) + Sent(units[1..], link, n + 1)
  }

  function Count(units: nat, link: nat -> Link, what: Link): nat {
    if units == 0 then 0 else Count(units - 1, link, what) + if link(units - 1) == what then 1 else 0
  }

  lemma {:induction false} SentAppend(units: seq<seq<Nal>>, u: seq<Nal>, link: nat -> Link, n: nat)
    ensures Sent(units + [u], link, n)
         == Sent(units, link, n) + if link(n + |units|) == Delivers then [Serialise(u)] else []
    decreases |units|
  {
    var last := if link(n + |units|) == Delivers then [Serialise(u)] else [];
    if units == [] {
      assert [u][1..] == [];
      assert Sent([u], link, n) == last + [];
    } else {
      assert (units + [u])[0] == units[0] && (units + [u])[1..] == units[1..] + [u];
      SentAppend(units[1..], u, link, n + 1);
      var first := if link(n) == Delivers then [Serialise(units[0])] else [];
      assert first + (Sent(units[1..], link, n + 1) + last) == (first + Sent(units[1..], link, n + 1)) + last;
    }
  }

  /** Every flush ends in exactly one of three ways. */
  lemma {:induction false} FlushesAddUp(units: seq<seq<Nal>>, link: nat -> Link)
    ensures |units| == |Sent(units, link, 0)| + Count(|units|, link, NotConnected) + Count(|units|, link, Throws)
    decreases |units|
  {
    if units == [] {
    } else {
      var front, last := units[..|units| - 1], units[|units| - 1];
      FlushesAddUp(front, link);
      SentAppend(front, last, link, 0);
      assert units == front + [last];
    }
  }

  function TotalLength(frames: seq<seq<byte>>): nat {
    |Flatten(frames)|
  }

  /** What the counters must say after the access units in `closed` have been flushed. */
  ghost predicate Accounts(closed: seq<seq<Nal>>, sent: seq<seq<byte>>,
                           frames: nat, bytes: nat, dropped: nat, link: nat -> Link)
  {
    && sent == Sent(closed, link, 0)
    && frames == |sent| && bytes == TotalLength(sent)
    && dropped == Count(|closed|, link, NotConnected)
  }

  /** One flush moves every counter by what it did. */
  lemma AccountsFlush(closed: seq<seq<Nal>>, unit: seq<Nal>, sent: seq<seq<byte>>,
                      frames: nat, bytes: nat, dropped: nat, link: nat -> Link)
    requires Accounts(closed, sent, frames, bytes, dropped, link)
    ensures var l := link(|closed|);
            Accounts(closed + [unit],
                     if l == Delivers then sent + [Serialise(unit)] else sent,
                     if l == Delivers then frames + 1 else frames,
                     if l == Delivers then bytes + |Serialise(unit)| else bytes,
                     if l == NotConnected then dropped + 1 else dropped, link)
  {
    SentAppend(closed, unit, link, 0);
    FlattenAppend(sent, Serialise(unit));
  }

  /** The capture side of a shadow session. */
  class VideoPath {
    var pendingNals: seq<Nal>
    var pendingHasVcl: bool
    var framesDropped: nat
    /** Access units closed since the current capture began, and the frames that went out. */
    var closed: seq<seq<Nal>>
    var sent: seq<seq<byte>>

    constructor ()
      ensures pendingNals == [] && !pendingHasVcl && framesDropped == 0
    {
      pendingNals, pendingHasVcl, framesDropped := [], false, 0;
      closed, sent := [], [];
    }

    ghost function State(): Assembly
      reads this
    {
      Assembly(pendingNals, pendingHasVcl, closed)
    }

    /** Prints the pending units into one buffer, clears them, and offers the frame to the link. */
    method FlushAccessUnit(link: Link, frameCount: nat, byteCount: nat) returns (frames: nat, bytes: nat)
      modifies this
      ensures State() == Close(old(State()))
      ensures old(pendingNals) == [] ==>
                sent == old(sent) && framesDropped == old(framesDropped) && frames == frameCount && bytes == byteCount
      ensures old(pendingNals) != [] ==>
                var unit := Serialise(old(pendingNals));
                && framesDropped == old(framesDropped) + (if link == NotConnected then 1 else 0)
                && sent == (if link == Delivers then old(sent) + [unit] else old(sent))
                && frames == frameCount + (if link == Delivers then 1 else 0)
                && bytes == byteCount + (if link == Delivers then |unit| else 0)
    {
      frames, bytes := frameCount, byteCount;
      if |pendingNals| == 0 {
        return;
      }
      var accessUnit := Print(pendingNals);
      closed := closed + [pendingNals];
      pendingNals := [];
      pendingHasVcl := false;
      if link == NotConnected {
        framesDropped := framesDropped + 1;
        return;
      }
      if link == Throws {
        return;
      }
      sent := sent + [accessUnit[..]];
      frames := frames + 1;
      bytes := bytes + accessUnit.Length;
    }

    /**
      Tails a growing capture file. Each element of `chunks` is one read; an empty one means
      nothing new has been written yet. Everything the method produces - grouping, frames,
      counters and the bytes left over - is a function of the concatenated chunks alone.
     */
    method TailCapture(chunks: seq<seq<byte>>, link: nat -> Link)
      returns (leftover: seq<byte>, frameCount: nat, byteCount: nat)
      modifies this
      ensures leftover == Rest(Flatten(chunks))
      ensures State() == TakeAll(EMPTY, Nals(Flatten(chunks)))
      ensures IsGrouping(NonEmpty(Nals(Flatten(chunks))), Parts(State()))
      ensures framesDropped >= old(framesDropped)
      ensures Accounts(closed, sent, frameCount, byteCount, framesDropped - old(framesDropped), link)
    {
      var splitter := new NalSplitter();
      pendingNals, pendingHasVcl, closed, sent := [], false, [], [];
      frameCount, byteCount := 0, 0;
      ghost var seen := Flatten(chunks[..0]);
      NothingYet(seen);
      NothingSent(closed, sent, link);
      for r := 0 to |chunks|
        invariant fresh(splitter)
        invariant seen == Flatten(chunks[..r]) && splitter.buffer == Rest(seen)
        invariant State() == TakeAll(EMPTY, Nals(seen))
        invariant framesDropped >= old(framesDropped)
        invariant Accounts(closed, sent, frameCount, byteCount, framesDropped - old(framesDropped), link)
      {
        FlattenNext(chunks, r);
        if |chunks[r]| == 0 {
          continue;
        }
        frameCount, byteCount := TakeChunk(splitter, chunks[r], link, frameCount, byteCount, seen, old(framesDropped));
        seen := seen + chunks[r];
      }
      AllRead(chunks);
      GroupingIsTheOnlyOne(Nals(Flatten(chunks)), Parts(State()));
      leftover := splitter.buffer;
    }

    /** One read: split it, then group the units it completed. `seen` is what was read before. */
    method TakeChunk(splitter: NalSplitter, data: seq<byte>, link: nat -> Link, frameCount: nat, byteCount: nat,
                     ghost seen: seq<byte>, ghost dropped0: nat)
      returns (frames: nat, bytes: nat)
      requires splitter.buffer == Rest(seen) && State() == TakeAll(EMPTY, Nals(seen))
      requires framesDropped >= dropped0
      requires Accounts(closed, sent, frameCount, byteCount, framesDropped - dropped0, link)
      modifies this, splitter
      ensures splitter.buffer == Rest(seen + data) && State() == TakeAll(EMPTY, Nals(seen + data))
      ensures framesDropped >= dropped0
      ensures Accounts(closed, sent, frames, bytes, framesDropped - dropped0, link)
    {
      ReadStep(seen, data);
      var nals := splitter.Append(data);
      frames, bytes := TakeNals(nals, link, frameCount, byteCount, dropped0);
    }

    /** The units one read completed, in order. */
    method TakeNals(nals: seq<Nal>, link: nat -> Link, frameCount: nat, byteCount: nat, ghost dropped0: nat)
      returns (frames: nat, bytes: nat)
      requires framesDropped >= dropped0
      requires Accounts(closed, sent, frameCount, byteCount, framesDropped - dropped0, link)
      modifies this
      ensures State() == TakeAll(old(State()), nals)
      ensures framesDropped >= dropped0
      ensures Accounts(closed, sent, frames, bytes, framesDropped - dropped0, link)
    {
      frames, bytes := frameCount, byteCount;
      for i := 0 to |nals|
        invariant State() == TakeAll(old(State()), nals[..i])
        invariant framesDropped >= dropped0
        invariant Accounts(closed, sent, frames, bytes, framesDropped - dropped0, link)
      {
        TakeAllOne(old(State()), nals[..i], nals[i]);
        assert nals[..i + 1] == nals[..i] + [nals[i]];
        frames, bytes := TakeNal(nals[i], link, frames, bytes, dropped0);
      }
      assert nals[..|nals|] == nals;
    }

    /** One unit from the splitter: closes the pending access unit first if a new picture starts. */
    method TakeNal(nal: Nal, link: nat -> Link, frameCount: nat, byteCount: nat, ghost dropped0: nat)
      returns (frames: nat, bytes: nat)
      requires framesDropped >= dropped0
      requires Accounts(closed, sent, frameCount, byteCount, framesDropped - dropped0, link)
      modifies this
      ensures State() == Take(old(State()), nal)
      ensures framesDropped >= dropped0
      ensures Accounts(closed, sent, frames, bytes, framesDropped - dropped0, link)
    {
      frames, bytes := frameCount, byteCount;
      if |nal| == 0 {
        return;
      }
      var nalType := nal[0] % 32;
      var isVcl := 1 <= nalType <= 5;
      var startsNewPicture := isVcl && |nal| > 1 && nal[1] >= 128;
      if startsNewPicture && pendingHasVcl {
        AccountsFlush(closed, pendingNals, sent, frames, bytes, framesDropped - dropped0, link);
        frames, bytes := FlushAccessUnit(link(|closed|), frames, bytes);
      }
      pendingNals := pendingNals + [nal];
      if isVcl {
        pendingHasVcl := true;
      }
    }
  }

  lemma FlattenNext(chunks: seq<seq<byte>>, r: nat)
    requires r < |chunks|
    ensures Flatten(chunks[..r + 1]) == Flatten(chunks[..r]) + chunks[r]
    ensures chunks[r] == [] ==> Flatten(chunks[..r + 1]) == Flatten(chunks[..r])
  {
    FlattenAppend(chunks[..r], chunks[r]);
    assert chunks[..r + 1] == chunks[..r] + [chunks[r]];
  }

  /** Splitting and grouping one more read continues what was split and grouped before. */
  lemma ReadStep(seen: seq<byte>, d: seq<byte>)
    ensures Rest(Rest(seen) + d) == Rest(seen + d)
    ensures TakeAll(TakeAll(EMPTY, Nals(seen)), Nals(Rest(seen) + d)) == TakeAll(EMPTY, Nals(seen + d))
  {
    SplitIncrementally(seen, d);
    TakeAllConcat(EMPTY, Nals(seen), Nals(Rest(seen) + d));
  }

  lemma NothingYet(seen: seq<byte>)
    requires |seen| == 0
    ensures Rest(seen) == [] && TakeAll(EMPTY, Nals(seen)) == EMPTY
  {
    assert Codes(seen, 0) == [];
  }

  lemma NothingSent(closed: seq<seq<Nal>>, sent: seq<seq<byte>>, link: nat -> Link)
    requires |closed| == 0 && |sent| == 0
    ensures Accounts(closed, sent, 0, 0, 0, link)
  {
  }

  lemma AllRead(chunks: seq<seq<byte>>)
    ensures Flatten(chunks[..|chunks|]) == Flatten(chunks)
  {
    assert chunks[..|chunks|] == chunks;
  }

  /** Writes `src` into `dest` from index `at` on. */
  method BlockCopy(src: seq<byte>, dest: array<byte>, at: nat)
    requires at + |src| <= dest.Length
    modifies dest
    ensures dest[..at + |src|] == old(dest[..at]) + src
    ensures dest[at + |src|..] == old(dest[at + |src|..])
  {
    forall k | 0 <= k < |src| {
      dest[at + k] := src[k];
    }
  }

  /** One start code and the bytes of one unit. */
  method CopyUnit(nal: Nal, dest: array<byte>, at: nat)
    requires at + 4 + |nal| <= dest.Length
    modifies dest
    ensures dest[..at + 4 + |nal|] == old(dest[..at]) + [0, 0, 0, 1] + nal
  {
    dest[at] := 0;
    dest[at + 1] := 0;
    dest[at + 2] := 0;
    dest[at + 3] := 1;
    assert dest[..at + 4] == old(dest[..at]) + [0, 0, 0, 1];
    BlockCopy(nal, dest, at + 4);
  }

  /** Fills one array with start codes and unit bytes at a running offset. */
  method Print(units: seq<Nal>) returns (accessUnit: array<byte>)
    ensures fresh(accessUnit) && accessUnit[..] == Serialise(units)
  {
    var total: nat := 0;
    for i := 0 to |units|
      invariant total == |Serialise(units[..i])|
    {
      RoomFor(units, i);
      total := total + 4 + |units[i]|;
    }
    assert units[..|units|] == units;
    accessUnit := new byte[total];
    var offset: nat := 0;
    for i := 0 to |units|
      invariant offset <= total == accessUnit.Length
      invariant accessUnit[..offset] == Serialise(units[..i])
    {
      RoomFor(units, i);
      CopyUnit(units[i], accessUnit, offset);
      offset := offset + 4 + |units[i]|;
    }
  }

  lemma {:induction false} SerialiseConcat(a: seq<Nal>, b: seq<Nal>)
    ensures Serialise(a + b) == Serialise(a) + Serialise(b)
    decreases |a|
  {
    if a == [] {
      assert a + b == b;
    } else {
      assert (a + b)[0] == a[0] && (a + b)[1..] == a[1..] + b;
      SerialiseConcat(a[1..], b);
    }
  }

  /** Before the i-th unit is copied: where its bytes go, and that they fit. */
  lemma RoomFor(units: seq<Nal>, i: nat)
    requires i < |units|
    ensures Serialise(units[..i + 1]) == Serialise(units[..i]) + [0, 0, 0, 1] + units[i]
    ensures |Serialise(units[..i])| + 4 + |units[i]| <= |Serialise(units)|
  {
    SerialiseAppend(units[..i], units[i]);
    assert units[..i + 1] == units[..i] + [units[i]];
    assert units == units[..i + 1] + units[i + 1..];
    SerialiseConcat(units[..i + 1], units[i + 1..]);
  }

  // ---- End to end ----

  /** How a receiver that scans a whole frame for start codes reads it. */
  function Receive(frame: seq<byte>): seq<Nal> {
    Nals(frame) + (if |Rest(frame)| >= 4 then [Rest(frame)[4..]] else [])
  }

  lemma {:induction false} ClosedUnitsAreClean(a: Assembly, nals: seq<Nal>)
    requires AllClean(nals) && AllClean(a.pending) && forall u | u in a.closed :: AllClean(u)
    ensures AllClean(TakeAll(a, nals).pending) && forall u | u in TakeAll(a, nals).closed :: AllClean(u)
    decreases |nals|
  {
    if nals == [] {
    } else {
      assert nals[0] in nals && AllClean(nals[1..]);
      ClosedUnitsAreClean(Take(a, nals[0]), nals[1..]);
    }
  }

  /**
    From capture bytes to receiver, for every capture: each frame built from it reads back
    as exactly the units of a proper access unit.
   */
  lemma ReceiverSeesUnits(capture: seq<byte>, unit: seq<Nal>)
    requires unit in TakeAll(EMPTY, Nals(capture)).closed
    ensures GoodUnit(unit) && Receive(Serialise(unit)) == unit
  {
    GroupingIsGood(EMPTY, Nals(capture));
    EmittedClean(capture);
    ClosedUnitsAreClean(EMPTY, Nals(capture));
    SerialiseRoundTrip(unit);
    var last := unit[|unit| - 1];
    assert ([0, 0, 0, 1] + last)[4..] == last;
    assert unit == unit[..|unit| - 1] + [last];
  }
}
