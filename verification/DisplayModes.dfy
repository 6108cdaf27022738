/**
  Choosing a display mode: the adapter's modes, one for each size, the one nearest to what was
  asked for, and the console brought back to its first size when a session's helper leaves.
 */
module DisplayModes {
  import opened Common

  /** A mode: its size, and everything else the driver reported with it. */
  datatype Mode = Mode(width: int32, height: int32, details: int)

  function Size(m: Mode): (int32, int32) {
    (m.width, m.height)
  }

  // ---- One mode for each size ----

  predicate Offers(modes: seq<Mode>, size: (int32, int32)) {
    exists k | 0 <= k < |modes| :: Size(modes[k]) == size
  }

  /** The last of the modes of a size. */
  function LastOf(modes: seq<Mode>, size: (int32, int32)): Option<Mode> {
    if modes == [] then None
    else if Size(modes[|modes| - 1]) == size then Some(modes[|modes| - 1])
    else LastOf(modes[..|modes| - 1], size)
  }

  /** The sizes in order of first appearance. */
  function FirstSizes(modes: seq<Mode>): seq<(int32, int32)> {
    if modes == [] then []
    else
      var before := FirstSizes(modes[..|modes| - 1]);
      var size := Size(modes[|modes| - 1]);
      if size in before then before else before + [size]
  }

  lemma {:induction false} SizesOnce(modes: seq<Mode>)
    ensures forall i, j | 0 <= i < j < |FirstSizes(modes)| :: FirstSizes(modes)[i] != FirstSizes(modes)[j]
    ensures forall size :: size in FirstSizes(modes) <==> LastOf(modes, size).Some?
    ensures forall size :: size in FirstSizes(modes) <==> Offers(modes, size)
    ensures forall size | LastOf(modes, size).Some? ::
              Size(LastOf(modes, size).value) == size && LastOf(modes, size).value in modes
  {
    if modes == [] {
    } else {
      var front, last := modes[..|modes| - 1], modes[|modes| - 1];
      SizesOnce(front);
      assert modes == front + [last];
      forall size
        ensures Offers(modes, size) <==> Offers(front, size) || Size(last) == size
      {
        if Offers(front, size) {
          var k :| 0 <= k < |front| && Size(front[k]) == size;
          assert Size(modes[k]) == size;
        }
      }
    }
  }

  /** Mode m is the last of its size. */
  ghost predicate IsLast(modes: seq<Mode>, k: nat, m: Mode) {
    k < |modes| && modes[k] == m && !Offers(modes[k + 1..], Size(m))
  }

  lemma LastStays(front: seq<Mode>, k: nat, m: Mode, last: Mode)
    requires IsLast(front, k, m) && Size(last) != Size(m)
    ensures IsLast(front + [last], k, m)
  {
    assert (front + [last])[k + 1..] == front[k + 1..] + [last];
    NotOffered(front[k + 1..], last, Size(m));
  }

  /** The mode kept of a size is the one reported last: none of the size comes behind. */
  lemma {:induction false} LastIsLast(modes: seq<Mode>, size: (int32, int32)) returns (k: nat)
    ensures match LastOf(modes, size)
            case None => !Offers(modes, size)
            case Some(m) => Size(m) == size && IsLast(modes, k, m)
  {
    hide Offers, IsLast;
    k := 0;
    if modes == [] {
      NothingOffered(size);
    } else {
      var front, last := modes[..|modes| - 1], modes[|modes| - 1];
      assert modes == front + [last];
      if Size(last) == size {
        k := |front|;
        LastOfAll(front, last);
      } else {
        k := LastIsLast(front, size);
        if LastOf(front, size).Some? {
          LastStays(front, k, LastOf(front, size).value, last);
        } else {
          NotOffered(front, last, size);
        }
      }
    }
  }

  lemma NothingOffered(size: (int32, int32))
    ensures !Offers([], size)
  {
  }

  lemma LastOfAll(front: seq<Mode>, last: Mode)
    ensures IsLast(front + [last], |front|, last)
  {
    assert (front + [last])[|front| + 1..] == [];
  }

  lemma NotOffered(modes: seq<Mode>, last: Mode, size: (int32, int32))
    requires !Offers(modes, size) && Size(last) != size
    ensures !Offers(modes + [last], size)
  {
    forall k | 0 <= k < |modes + [last]|
      ensures Size((modes + [last])[k]) != size
    {
      if k < |modes| {
        assert Size(modes[k]) != size;
      }
    }
  }

  /** Where a size appears first. */
  function FirstIndex(modes: seq<Mode>, size: (int32, int32)): (k: nat)
    ensures k <= |modes| && (k < |modes| ==> Size(modes[k]) == size)
  {
    if modes == [] || Size(modes[0]) == size then 0 else 1 + FirstIndex(modes[1..], size)
  }

  lemma {:induction false} FirstIndexAppend(modes: seq<Mode>, last: Mode, size: (int32, int32))
    ensures FirstIndex(modes + [last], size)
              == if FirstIndex(modes, size) < |modes| || Size(last) == size then FirstIndex(modes, size)
                 else |modes| + 1
  {
    if modes == [] {
      assert ([] + [last])[1..] == [];
    } else {
      assert (modes + [last])[1..] == modes[1..] + [last];
      FirstIndexAppend(modes[1..], last, size);
    }
  }

  /** The sizes come in the order in which they appear first. */
  lemma {:induction false} SizesInOrder(modes: seq<Mode>)
    ensures forall i | 0 <= i < |FirstSizes(modes)| :: FirstIndex(modes, FirstSizes(modes)[i]) < |modes|
    ensures forall i, j | 0 <= i < j < |FirstSizes(modes)| ::
              FirstIndex(modes, FirstSizes(modes)[i]) < FirstIndex(modes, FirstSizes(modes)[j])
  {
    if modes == [] {
    } else {
      var front, last := modes[..|modes| - 1], modes[|modes| - 1];
      assert modes == front + [last];
      SizesInOrder(front);
      SizesFound(front);
      forall i | 0 <= i < |FirstSizes(modes)|
        ensures FirstIndex(modes, FirstSizes(modes)[i])
                  == if i < |FirstSizes(front)| then FirstIndex(front, FirstSizes(front)[i]) else |front|
      {
        FirstIndexAppend(front, last, FirstSizes(modes)[i]);
      }
    }
  }

  lemma {:induction false} SizesFound(modes: seq<Mode>)
    ensures forall size :: FirstIndex(modes, size) < |modes| ==> size in FirstSizes(modes)
  {
    SizesOnce(modes);
    forall size | FirstIndex(modes, size) < |modes|
      ensures size in FirstSizes(modes)
    {
      assert Size(modes[FirstIndex(modes, size)]) == size;
      assert Offers(modes, size);
    }
  }

  /** Each published size once, in order of first appearance, as the mode reported last. */
  ghost predicate OnePerSize(published: seq<Mode>, modes: seq<Mode>) {
    && |modes| == |FirstSizes(published)|
    && forall k | 0 <= k < |modes| :: Some(modes[k]) == LastOf(published, FirstSizes(published)[k])
  }

  /** The table is a dictionary that keeps its keys in order of arrival; later modes of a size replace earlier ones. */
  method EnumerateSupportedResolutions(published: seq<Mode>) returns (modes: seq<Mode>)
    ensures OnePerSize(published, modes)
  {
    var order: seq<(int32, int32)> := [];
    var seen: map<(int32, int32), Mode> := map[];
    var i := 0;
    while i < |published|
      invariant 0 <= i <= |published|
      invariant order == FirstSizes(published[..i])
      invariant forall size :: size in seen <==> size in order
      invariant forall size | size in seen :: LastOf(published[..i], size) == Some(seen[size])
    {
      assert published[..i + 1][..i] == published[..i];
      var mode := published[i];
      if Size(mode) !in seen {
        order := order + [Size(mode)];
      }
      seen := seen[Size(mode) := mode];
      i := i + 1;
    }
    assert published[..i] == published;
    modes := seq(|order|, k requires 0 <= k < |order| && order[k] in seen => seen[order[k]]);
  }

  // ---- The nearest mode ----

  predicate Candidate(m: Mode) {
    m.width > 0 && m.height > 0
  }

  function Abs(x: real): real {
    if x < 0.0 then -x else x
  }

  /** With a zero side the score is infinite or no number, and never beats another. */
  predicate Scorable(m: Mode, width: int32, height: int32) {
    Candidate(m) && width != 0 && height != 0
  }

  /** How far a mode is from a target with no zero side: shape counts five times, then area. */
  function Score(m: Mode, width: int32, height: int32): real
    requires Scorable(m, width, height)
  {
    var area := (width * height) as real;
    assert width * height != 0;
    Abs(m.width as real / m.height as real - width as real / height as real) * 5.0
      + Abs(area - (m.width * m.height) as real) / area
  }

  /** Unchecked 32-bit product. */
  function Area32(m: Mode): int {
    (m.width * m.height + 0x8000_0000) % 0x1_0000_0000 - 0x8000_0000
  }

  /** Mode k is the first of those with the least score. */
  ghost predicate Nearest(modes: seq<Mode>, k: int, width: int32, height: int32) {
    && 0 <= k < |modes| && Scorable(modes[k], width, height)
    && forall j | 0 <= j < |modes| && Scorable(modes[j], width, height) ::
         if j < k then Score(modes[k], width, height) < Score(modes[j], width, height)
         else Score(modes[k], width, height) <= Score(modes[j], width, height)
  }

  ghost predicate Smallest(modes: seq<Mode>, k: int) {
    && 0 <= k < |modes|
    && forall j | 0 <= j < |modes| ::
         if j < k then Area32(modes[k]) < Area32(modes[j]) else Area32(modes[k]) <= Area32(modes[j])
  }

  /** The chosen index: the nearest mode, or the smallest when none has a score, or none at all. */
  method FindNearestAmong(modes: seq<Mode>, width: int32, height: int32) returns (best: int)
    ensures best == -1 <==> modes == []
    ensures best != -1 ==> Nearest(modes, best, width, height) || Smallest(modes, best)
    ensures best != -1 && (exists k | 0 <= k < |modes| :: Scorable(modes[k], width, height)) ==>
              Nearest(modes, best, width, height)
  {
    best := -1;
    var bestScore := 0.0;
    var i := 0;
    while i < |modes|
      invariant 0 <= i <= |modes|
      invariant best == -1 ==> forall j | 0 <= j < i :: !Scorable(modes[j], width, height)
      invariant best != -1 ==>
                  Nearest(modes[..i], best, width, height) && bestScore == Score(modes[best], width, height)
    {
      if Scorable(modes[i], width, height) {
        var score := Score(modes[i], width, height);
        if best == -1 || score < bestScore {
          best, bestScore := i, score;
        }
      }
      i := i + 1;
    }
    assert modes[..i] == modes;
    if best == -1 && modes != [] {
      best := 0;
      i := 1;
      while i < |modes|
        invariant 1 <= i <= |modes|
        invariant Smallest(modes[..i], best)
      {
        if Area32(modes[i]) < Area32(modes[best]) {
          best := i;
        }
        i := i + 1;
      }
      assert modes[..i] == modes;
    }
  }

  lemma SquaresMeet(a: int, b: int, c: int, d: int)
    requires a > 0 && b > 0 && c > 0 && d > 0
    requires a * d == c * b && a * b == c * d
    ensures a == c && b == d
  {
    assert a * a * (b * d) == c * c * (b * d) by {
      assert a * a * (b * d) == (a * d) * (a * b);
      assert c * c * (b * d) == (c * b) * (c * d);
    }
    assert a * a == c * c;
    assert (a - c) * (a + c) == 0;
    assert a == c;
  }

  lemma SameShape(a: int, b: int, c: int, d: int)
    requires b > 0 && d > 0
    ensures a as real / b as real == c as real / d as real <==> a * d == c * b
  {
    var x, y := a as real / b as real, c as real / d as real;
    assert a as real == x * b as real && c as real == y * d as real;
    assert (a * d) as real == x * (b as real * d as real);
    assert (c * b) as real == y * (b as real * d as real);
    RealCancel(x, y, b as real * d as real);
  }

  lemma RealCancel(x: real, y: real, t: real)
    requires t > 0.0
    ensures x * t == y * t <==> x == y
  {
    if x < y {
      assert x * t < y * t;
    } else if y < x {
      assert y * t < x * t;
    }
  }

  lemma Quotient(x: real, t: real)
    requires x >= 0.0 && t > 0.0
    ensures x / t >= 0.0 && (x / t == 0.0 <==> x == 0.0)
  {
  }

  /** No mode scores below zero, and only one of exactly the size asked for scores zero. */
  lemma ZeroIsExact(m: Mode, width: int32, height: int32)
    requires Candidate(m) && width > 0 && height > 0
    ensures Score(m, width, height) >= 0.0
    ensures Score(m, width, height) == 0.0 <==> Size(m) == (width, height)
  {
    var area, shape := (width * height) as real, m.width as real / m.height as real - width as real / height as real;
    var off := Abs(area - (m.width * m.height) as real);
    SameShape(m.width, m.height, width, height);
    assert width * height > 0;
    Quotient(off, area);
    ZeroSum(Abs(shape), off / area);
    assert Score(m, width, height) == Abs(shape) * 5.0 + off / area;
    if shape == 0.0 && off == 0.0 {
      SquaresMeet(m.width, m.height, width, height);
    }
  }

  lemma ZeroSum(x: real, y: real)
    requires x >= 0.0 && y >= 0.0
    ensures x * 5.0 + y >= 0.0 && (x * 5.0 + y == 0.0 <==> x == 0.0 && y == 0.0)
  {
  }

  /** How far a mode is from the target in shape, and in area by the target's own. */
  function ShapeOff(m: Mode, width: int32, height: int32): real
    requires Candidate(m) && height > 0
  {
    Abs(m.width as real / m.height as real - width as real / height as real)
  }

  function AreaOff(m: Mode, width: int32, height: int32): real
    requires width * height > 0
  {
    Abs(1.0 - (m.width * m.height) as real / (width * height) as real)
  }

  /**
    Shape outweighs area five times: one mode beats another exactly when what it is worse by in
    area is less than five times what it is better by in shape. So of modes of one shape the
    nearer in area wins, and of modes of one area the nearer in shape.
   */
  lemma ShapeOutweighsArea(a: Mode, b: Mode, width: int32, height: int32)
    requires Candidate(a) && Candidate(b) && width > 0 && height > 0
    ensures width * height > 0
    ensures Score(a, width, height) < Score(b, width, height)
       <==> AreaOff(a, width, height) - AreaOff(b, width, height)
              < 5.0 * (ShapeOff(b, width, height) - ShapeOff(a, width, height))
  {
    assert width * height > 0;
    Proportion((a.width * a.height) as real, (width * height) as real);
    Proportion((b.width * b.height) as real, (width * height) as real);
  }

  lemma Cancel(y: real, t: real)
    requires t > 0.0
    ensures y * t / t == y && (y * t < 0.0 <==> y < 0.0)
  {
  }

  lemma Proportion(x: real, t: real)
    requires t > 0.0
    ensures Abs(t - x) / t == Abs(1.0 - x / t)
  {
    var y := 1.0 - x / t;
    assert t - x == y * t;
    Cancel(y, t);
    Cancel(-y, t);
    assert -y * t == -(y * t);
  }

  /** The area by which the smallest mode is chosen is the true one as long as that fits 32 bits. */
  lemma AreaIsTrue(m: Mode)
    requires -0x8000_0000 <= m.width * m.height < 0x8000_0000
    ensures Area32(m) == m.width * m.height
  {
  }

  /** An exact match among modes of different sizes is the nearest one. */
  lemma ExactWins(modes: seq<Mode>, k: nat, best: nat, width: int32, height: int32)
    requires width > 0 && height > 0 && k < |modes| && Size(modes[k]) == (width, height)
    requires Nearest(modes, best, width, height)
    ensures Size(modes[best]) == (width, height)
  {
    hide Score;
    ZeroIsExact(modes[k], width, height);
    ZeroIsExact(modes[best], width, height);
  }

  lemma SizeDecides(a: Mode, b: Mode, width: int32, height: int32)
    requires Size(a) == Size(b)
    ensures Scorable(a, width, height) <==> Scorable(b, width, height)
    ensures Scorable(a, width, height) ==> Score(a, width, height) == Score(b, width, height)
  {
  }

  lemma Represented(published: seq<Mode>, modes: seq<Mode>, size: (int32, int32)) returns (j: nat)
    requires OnePerSize(published, modes) && Offers(published, size)
    ensures j < |modes| && Size(modes[j]) == size
  {
    SizesOnce(published);
    assert size in FirstSizes(published);
    j :| 0 <= j < |modes| && FirstSizes(published)[j] == size;
  }

  lemma LeastOfPublished(published: seq<Mode>, modes: seq<Mode>, best: nat, k: nat, width: int32, height: int32)
    requires OnePerSize(published, modes) && k < |published| && Scorable(published[k], width, height)
    requires best < |modes|
    requires (exists j | 0 <= j < |modes| :: Scorable(modes[j], width, height)) ==> Nearest(modes, best, width, height)
    ensures Scorable(modes[best], width, height)
    ensures Score(modes[best], width, height) <= Score(published[k], width, height)
  {
    assert Offers(published, Size(published[k]));
    var j := Represented(published, modes, Size(published[k]));
    SizeDecides(modes[j], published[k], width, height);
  }

  /**
    The nearest of the published modes. If the adapter publishes the very size asked for, that
    is what is chosen, in the form the driver reported last.
   */
  method FindNearestResolution(published: seq<Mode>, width: int32, height: int32) returns (r: Option<Mode>)
    ensures r == None <==> published == []
    ensures r.Some? ==> r.value in published && LastOf(published, Size(r.value)) == r
    ensures forall k | 0 <= k < |published| && Scorable(published[k], width, height) ::
              && r.Some? && Scorable(r.value, width, height)
              && Score(r.value, width, height) <= Score(published[k], width, height)
    ensures width > 0 && height > 0 && Offers(published, (width, height)) ==>
              r.Some? && Size(r.value) == (width, height)
  {
    hide Score, Scorable;
    var modes := EnumerateSupportedResolutions(published);
    var best := FindNearestAmong(modes, width, height);
    SizesOnce(published);
    if best == -1 {
      NothingPublished(published);
      return None;
    }
    r := Some(modes[best]);
    forall k | 0 <= k < |published| && Scorable(published[k], width, height)
      ensures Scorable(r.value, width, height) && Score(r.value, width, height) <= Score(published[k], width, height)
    {
      LeastOfPublished(published, modes, best, k, width, height);
    }
    if width > 0 && height > 0 && Offers(published, (width, height)) {
      ExactIsChosen(published, modes, best, width, height);
    }
  }

  lemma NothingPublished(published: seq<Mode>)
    requires FirstSizes(published) == []
    ensures published == []
  {
    SizesOnce(published);
    if published != [] {
      assert Offers(published, Size(published[0]));
    }
  }

  lemma ExactIsChosen(published: seq<Mode>, modes: seq<Mode>, best: nat, width: int32, height: int32)
    requires OnePerSize(published, modes) && width > 0 && height > 0 && Offers(published, (width, height))
    requires best < |modes|
    requires (exists j | 0 <= j < |modes| :: Scorable(modes[j], width, height)) ==> Nearest(modes, best, width, height)
    ensures Size(modes[best]) == (width, height)
  {
    var k := Represented(published, modes, (width, height));
    assert Scorable(modes[k], width, height);
    ExactWins(modes, k, best, width, height);
  }

  // ---- The console ----

  /** The console during a session: the size its helper found, and the size now. */
  class Console {
    const original: (int32, int32)
    var size: (int32, int32)

    constructor (found: (int32, int32))
      ensures original == size == found
    {
      original, size := found, found;
    }

    /** `accepts`: whether the driver carries out a change of mode. */
    method TrySetNearestResolution(published: seq<Mode>, width: int32, height: int32, accepts: bool)
      returns (r: Option<(int32, int32)>)
      modifies this
      ensures r.Some? ==> r.value == size && Offers(published, size)
      ensures r == None ==> size == old(size)
      ensures r == None ==> published == [] || !accepts
      ensures width > 0 && height > 0 && Offers(published, (width, height)) && r.Some? ==> size == (width, height)
    {
      var nearest := FindNearestResolution(published, width, height);
      if nearest == None {
        return None;
      }
      var mode := nearest.value;
      ghost var k :| 0 <= k < |published| && published[k] == mode;
      if size == Size(mode) {
        return Some(size);
      }
      if !accepts {
        return None;
      }
      size := Size(mode);
      return Some(size);
    }

    /**
      On exit: whatever sizes the session asked for, a console whose first size is published,
      and whose driver obliges, is back at it.
     */
    method Leave(published: seq<Mode>, accepts: bool)
      modifies this
      ensures original.0 > 0 && original.1 > 0 && Offers(published, original) && accepts ==> size == original
      ensures size == old(size) || Offers(published, size)
    {
      if size != original {
        var _ := TrySetNearestResolution(published, original.0, original.1, accepts);
      }
    }
  }
}
