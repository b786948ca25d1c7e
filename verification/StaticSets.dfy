/** Resolving "*" before a set is used (staticNumSet of imapserver/imapmemserver/mailbox.go). */
module StaticSets {
  import opened NumSet

  /** staticNumRange: "*" becomes the maximum, and "n:*" is turned around when n lies beyond it. */
  function StaticRange(r: Range, max: uint32): (t: Range) {
    var start, stop := if r.start == 0 then max else r.start, if r.stop == 0 then max else r.stop;
    if (r.start == 0 || r.stop == 0) && start > stop then Range(stop, start) else Range(start, stop)
  }

  function Resolved(s: seq<Range>, max: uint32): (t: seq<Range>)
    ensures |t| == |s| && forall i | 0 <= i < |s| :: t[i] == StaticRange(s[i], max)
  {
    seq(|s|, i requires 0 <= i < |s| => StaticRange(s[i], max))
  }

  /** The loop of staticNumSet. */
  method Resolve(s: seq<Range>, max: uint32) returns (t: seq<Range>)
    ensures t == Resolved(s, max)
  {
    t := s;
    for i := 0 to |s|
      invariant |t| == |s|
      invariant forall k | 0 <= k < i :: t[k] == StaticRange(s[k], max)
      invariant forall k | i <= k < |s| :: t[k] == s[k]
    {
      var start, stop, dyn := t[i].start, t[i].stop, false;
      if start == 0 { start, dyn := max, true; }
      if stop == 0 { stop, dyn := max, true; }
      if dyn && start > stop { start, stop := stop, start; }
      t := t[i := Range(start, stop)];
    }
  }

  // ---------------------------------------------------------------- searching a list that may be in disorder

  /** Where the binary search ends up, on any list. */
  function Halve(s: seq<Range>, q: uint32, lo: nat, hi: nat): (i: nat)
    requires lo <= hi < |s|
    ensures lo <= i <= hi
    decreases hi - lo
  {
    if lo == hi then lo
    else
      var mid := (lo + hi) / 2;
      if s[mid].Less(q) then Halve(s, q, mid + 1, hi) else Halve(s, q, lo, mid)
  }

  /** Set.Contains on any list. */
  predicate Found(s: seq<Range>, q: uint32) {
    && q != 0 && s != []
    && var i := Halve(s, q, 0, |s| - 1); !s[i].Less(q) && s[i].Contains(q)
  }

  method Lookup(s: seq<Range>, q: uint32) returns (b: bool)
    ensures b == Found(s, q)
  {
    var lo, hi := 0, |s| - 1;
    while lo < hi
      invariant 0 <= lo <= hi + 1 <= |s| && (s != [] ==> lo <= hi)
      invariant s != [] ==> Halve(s, q, lo, hi) == Halve(s, q, 0, |s| - 1)
    {
      var mid := (lo + hi) / 2;
      if s[mid].Less(q) { lo := mid + 1; } else { hi := mid; }
    }
    if hi < 0 || s[lo].Less(q) { return false; }
    b := s[lo].Contains(q) && q != 0;
  }

  /** i is the first range that does not lie before q, or the last one. */
  ghost predicate IsFirst(s: seq<Range>, q: uint32, i: nat) {
    && i < |s| && (forall k | 0 <= k < i :: s[k].Less(q))
    && (s[i].Less(q) ==> i == |s| - 1)
  }

  lemma {:induction false} HalveFirst(s: seq<Range>, q: uint32, lo: nat, hi: nat)
    requires lo <= hi < |s| && forall i, j | 0 <= i < j < |s| - 1 && s[j].Less(q) :: s[i].Less(q)
    requires (forall k | 0 <= k < lo :: s[k].Less(q)) && (hi < |s| - 1 ==> !s[hi].Less(q))
    ensures IsFirst(s, q, Halve(s, q, lo, hi))
    decreases hi - lo
  {
    if lo < hi {
      var mid := (lo + hi) / 2;
      if s[mid].Less(q) { HalveFirst(s, q, mid + 1, hi); } else { HalveFirst(s, q, lo, mid); }
    }
  }

  // ---------------------------------------------------------------- what a set means

  /** The set holds q when "*" stands for max, as section 9 of RFC 9051 reads "n:*" in either order. */
  ghost predicate Means(s: seq<Range>, max: uint32, q: uint32) {
    exists i | 0 <= i < |s| :: RangeMeans(s[i], max, q)
  }

  predicate RangeMeans(r: Range, max: uint32, q: uint32) {
    if r.stop != 0 then r.start <= q <= r.stop
    else if r.start == 0 then q == max
    else r.start <= q <= max || max <= q <= r.start
  }

  /** Only the last range means q, and it is hidden behind one that starts beyond q. */
  ghost predicate Missed(s: seq<Range>, max: uint32, q: uint32) {
    && |s| >= 2 && s[|s| - 1].stop == 0 && RangeMeans(s[|s| - 1], max, q) && s[|s| - 2].start > q
    && !(exists i | 0 <= i < |s| - 1 :: RangeMeans(s[i], max, q))
  }

  lemma ResolvedLess(s: seq<Range>, max: uint32, q: uint32)
    requires Canonical(s) && max > 0 && q > 0
    ensures var t := Resolved(s, max);
            && (forall i | 0 <= i < |s| - 1 :: t[i].Less(q) <==> s[i].stop < q)
            && (forall i, j | 0 <= i < j < |s| - 1 && t[j].Less(q) :: t[i].Less(q))
            && (forall i | 0 <= i < |s| :: t[i].Contains(q) <==> RangeMeans(s[i], max, q))
  {
    forall i, j | 0 <= i < j < |s| ensures s[i].stop != 0 && (s[j].stop != 0 ==> s[i].stop < s[j].stop) {
      assert Apart(s[i], s[j]) && s[j].Ok();
    }
    assert forall i | 0 <= i < |s| :: s[i].Ok();
    assert forall i | 0 <= i < |s| - 1 :: s[i].stop != 0 && s[i].start != 0 by {
      assert forall i | 0 <= i < |s| - 1 :: Apart(s[i], s[|s| - 1]);
    }
  }

  /** Exactly when the code finds a number in a set that is not resolved yet: when it is meant, except
      where the last range alone means it and is hidden. */
  lemma StaticExact(s: seq<Range>, max: uint32, q: uint32)
    requires Canonical(s) && max > 0 && q > 0
    ensures Found(Resolved(s, max), q) <==> Means(s, max, q) && !Missed(s, max, q)
  {
    var t := Resolved(s, max);
    ResolvedLess(s, max, q);
    if s != [] {
      HalveFirst(t, q, 0, |t| - 1);
      var i := Halve(t, q, 0, |t| - 1);
      hide Halve, StaticRange;
      FirstDecides(s, max, q, i);
    }
  }

  lemma FirstDecides(s: seq<Range>, max: uint32, q: uint32, i: nat)
    requires Canonical(s) && max > 0 && q > 0 && i < |s|
    requires forall k | 0 <= k < i :: s[k].stop < q
    requires i < |s| - 1 ==> s[i].stop >= q
    ensures RangeMeans(s[i], max, q) <==> Means(s, max, q) && !Missed(s, max, q)
  {
    assert forall k | 0 <= k < |s| :: s[k].Ok();
    forall k | 0 <= k < |s| - 1 ensures Apart(s[k], s[|s| - 1]) {}
    forall k | i < k < |s| ensures Apart(s[i], s[k]) {}
    if RangeMeans(s[i], max, q) {
      assert Means(s, max, q);
    } else if Means(s, max, q) {
      var k :| 0 <= k < |s| && RangeMeans(s[k], max, q);
      assert k == |s| - 1 && i < k && s[k].stop == 0;
      assert i < |s| - 2 ==> Apart(s[i], s[|s| - 2]);
    }
  }

  /** Within the mailbox only the maximum can be missed. */
  lemma MissedIsMaximum(s: seq<Range>, max: uint32, q: uint32)
    requires Canonical(s) && 0 < q <= max && Missed(s, max, q)
    ensures q == max
  {
    assert Apart(s[|s| - 2], s[|s| - 1]) && s[|s| - 2].Ok();
  }

  /** A maximum that the code overlooks: in 5:6,9:* with three messages, "*" is 3. */
  lemma MissedExample()
    ensures var s := [Range(5, 6), Range(9, 0)];
            Canonical(s) && Means(s, 3, 3) && Missed(s, 3, 3) && !Found(Resolved(s, 3), 3)
  {
    var s := [Range(5, 6), Range(9, 0)];
    assert RangeMeans(s[1], 3, 3);
    StaticExact(s, 3, 3);
  }
}
