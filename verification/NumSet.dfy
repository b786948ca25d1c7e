/** Number sets: the canonical range lists of internal/imapnum/numset.go, read as plain mathematical sets. */
module NumSet {

  const MAX_UINT32: nat := 0xFFFF_FFFF

  type uint32 = n: nat | n <= 0xFFFF_FFFF

  /** A range of numbers. Zero stands for "*": (0, 0) is "*" and (n, 0) is "n:*". */
  datatype Range = Range(start: uint32, stop: uint32) {

    predicate Ok() {
      (start == 0 ==> stop == 0) && (stop == 0 || start <= stop)
    }

    /** Whether the number q (0 for "*") belongs to this range, as the code tests it. */
    predicate Contains(q: uint32) {
      if q == 0 then stop == 0
      else start != 0 && start <= q && (q <= stop || stop == 0)
    }

    /** Whether this range precedes and does not contain q. */
    predicate Less(q: uint32) {
      (stop < q || q == 0) && stop != 0
    }
  }

  /** What a number set talks about: the naturals, and the unresolved "*". */
  datatype Elem = Num(n: nat) | Star

  /** The meaning of a range: "n:*" holds every natural from n on, and "*". */
  ghost predicate InRange(r: Range, e: Elem) {
    match e
    case Star => r.stop == 0
    case Num(n) => r.start != 0 && r.start <= n && (r.stop == 0 || n <= r.stop)
  }

  ghost predicate InSet(s: seq<Range>, e: Elem) {
    exists r | r in s :: InRange(r, e)
  }

  /** a ends before b begins, with at least one number between them. */
  predicate Apart(a: Range, b: Range) {
    a.stop != 0 && (b.start == 0 || a.stop + 1 < b.start)
  }

  /** The canonical form: sorted, disjoint, not touching, dynamic only at the end. */
  ghost predicate Canonical(s: seq<Range>) {
    && (forall i | 0 <= i < |s| :: s[i].Ok())
    && (forall i, j | 0 <= i < j < |s| :: Apart(s[i], s[j]))
  }

  ghost predicate SameMembers(s: seq<Range>, t: seq<Range>) {
    forall e :: InSet(s, e) <==> InSet(t, e)
  }

  /** The order a range is stored in: "*" and the larger number last. */
  function Ordered(start: uint32, stop: uint32): (r: Range)
    ensures r.Ok()
    ensures r == Range(start, stop) || r == Range(stop, start)
  {
    if (stop < start && stop != 0) || start == 0 then Range(stop, start) else Range(start, stop)
  }

  // ---------------------------------------------------------------- merging

  datatype Merged = Merged(union: Range, ok: bool)

  /** Range.Merge. The addition wraps at 32 bits as it does in the code. */
  function Merge(s0: Range, t0: Range): (m: Merged)
    requires s0.Ok() && t0.Ok()
    ensures m.ok <==> !Apart(s0, t0) && !Apart(t0, s0)
    ensures !m.ok ==> m.union == s0
    ensures m.union.Ok()
  {
    if s0 == t0 then Merged(s0, true)
    else if s0.start != 0 && t0.start != 0 then
      var s := if s0.start > t0.start then t0 else s0;
      var t := if s0.start > t0.start then s0 else t0;
      if (s.stop >= t.stop && t.stop != 0) || s.stop == 0 then Merged(s, true)
      else if (s.stop + 1) % 0x1_0000_0000 >= t.start || s.stop == MAX_UINT32 then
        Merged(Range(s.start, t.stop), true)
      else Merged(s0, false)
    else if s0.start == 0 then
      if t0.stop == 0 then Merged(t0, true) else Merged(s0, false)
    else if s0.stop == 0 then Merged(s0, true)
    else Merged(s0, false)
  }

  lemma MergeMembers(s: Range, t: Range, e: Elem)
    requires s.Ok() && t.Ok() && Merge(s, t).ok
    ensures InRange(Merge(s, t).union, e) <==> InRange(s, e) || InRange(t, e)
  {
  }

  // ------------------------------------------------- uniqueness of the canonical form

  lemma InSetCons(s: seq<Range>, e: Elem)
    requires s != []
    ensures InSet(s, e) <==> InRange(s[0], e) || InSet(s[1..], e)
  {
    assert s == [s[0]] + s[1..];
  }

  /** The least member of a range. */
  ghost function First(r: Range): (e: Elem)
    requires r.Ok()
    ensures InRange(r, e)
  {
    if r.start == 0 then Star else Num(r.start)
  }

  lemma SameHead(s: seq<Range>, t: seq<Range>)
    requires Canonical(s) && Canonical(t) && s != [] && t != []
    requires SameMembers(s, t)
    ensures s[0].start == t[0].start
  {
    HeadNotAfter(s, t);
    HeadNotAfter(t, s);
  }

  lemma HeadNotAfter(s: seq<Range>, t: seq<Range>)
    requires Canonical(s) && Canonical(t) && s != [] && t != []
    requires SameMembers(s, t)
    ensures t[0].start != 0 ==> s[0].start != 0 && s[0].start <= t[0].start
  {
    var e := First(t[0]);
    assert t[0] in t && InSet(t, e);
    assert InSet(s, e);
    InSetCons(s, e);
    if !InRange(s[0], e) {
    }
  }

  lemma SameHeadStop(s: seq<Range>, t: seq<Range>)
    requires Canonical(s) && Canonical(t) && s != [] && t != []
    requires SameMembers(s, t) && s[0].start == t[0].start
    requires s[0].stop != 0
    ensures t[0].stop != 0 && t[0].stop <= s[0].stop
  {
    var e := Num(s[0].stop + 1);
    if InRange(t[0], e) {
      assert t[0] in t && InSet(t, e);
      assert InSet(s, e);
      InSetCons(s, e);
      assert false;
    }
  }

  lemma SameTail(s: seq<Range>, t: seq<Range>)
    requires Canonical(s) && Canonical(t) && s != [] && t != []
    requires SameMembers(s, t) && s[0] == t[0]
    ensures SameMembers(s[1..], t[1..])
  {
    forall e ensures InSet(s[1..], e) <==> InSet(t[1..], e) {
      InSetCons(s, e);
      InSetCons(t, e);
      if InSet(s[1..], e) { }
      if InSet(t[1..], e) { }
    }
  }

  /** Two canonical lists with the same members are the same list. */
  lemma {:induction false} CanonicalUnique(s: seq<Range>, t: seq<Range>)
    requires Canonical(s) && Canonical(t) && SameMembers(s, t)
    ensures s == t
    decreases |s|
  {
    assert t != [] ==> t[0] in t && InSet(t, First(t[0]));
    if s != [] {
      assert s[0] in s && InSet(s, First(s[0]));
      assert t != [];
      SameHead(s, t);
      if s[0].stop != 0 { SameHeadStop(s, t); }
      if t[0].stop != 0 { SameHeadStop(t, s); }
      SameTail(s, t);
      CanonicalUnique(s[1..], t[1..]);
      assert s == [s[0]] + s[1..] && t == [t[0]] + t[1..];
    }
  }

  // ---------------------------------------------------------------- insertion

  /** What inserting v means: walk the list, absorbing every range that touches v. */
  function Insert(s: seq<Range>, v: Range): (r: seq<Range>)
    requires v.Ok() && forall i | 0 <= i < |s| :: s[i].Ok()
  {
    if s == [] then [v]
    else if Merge(s[0], v).ok then Insert(s[1..], Merge(s[0], v).union)
    else if Apart(s[0], v) then [s[0]] + Insert(s[1..], v)
    else [v] + s
  }

  /** Every range of s is apart from, and after, a. */
  ghost predicate AllAfter(a: Range, s: seq<Range>) {
    forall r | r in s :: Apart(a, r)
  }

  lemma {:induction false} InsertCanonical(s: seq<Range>, v: Range)
    requires Canonical(s) && v.Ok()
    ensures Canonical(Insert(s, v))
    ensures forall a: Range | a.Ok() && Apart(a, v) && AllAfter(a, s) :: AllAfter(a, Insert(s, v))
    decreases |s|
  {
    if s != [] {
      var m := Merge(s[0], v);
      if m.ok {
        InsertCanonical(s[1..], m.union);
        forall a: Range | a.Ok() && Apart(a, v) && AllAfter(a, s) ensures AllAfter(a, Insert(s, v)) {
          assert s[0] in s;
        }
      } else if Apart(s[0], v) {
        InsertCanonical(s[1..], v);
        assert AllAfter(s[0], s[1..]);
        assert AllAfter(s[0], Insert(s[1..], v));
      } else {
        forall j | 0 <= j < |s| ensures Apart(v, s[j]) {
          if j > 0 { assert Apart(s[0], s[j]); }
        }
      }
    }
  }

  lemma {:induction false} InsertMembers(s: seq<Range>, v: Range, e: Elem)
    requires v.Ok() && forall i | 0 <= i < |s| :: s[i].Ok()
    ensures InSet(Insert(s, v), e) <==> InSet(s, e) || InRange(v, e)
    decreases |s|
  {
    if s == [] {
      assert v in [v];
    } else {
      var m := Merge(s[0], v);
      InSetCons(s, e);
      if m.ok {
        MergeMembers(s[0], v, e);
        InsertMembers(s[1..], m.union, e);
      } else if Apart(s[0], v) {
        InsertMembers(s[1..], v, e);
        InSetCons([s[0]] + Insert(s[1..], v), e);
      } else {
        InSetCons([v] + s, e);
      }
    }
  }

  /** Insertion is the one canonical list whose members are the old ones and the range. */
  lemma InsertUnique(s: seq<Range>, v: Range, t: seq<Range>)
    requires Canonical(s) && v.Ok() && Canonical(t)
    requires forall e :: InSet(t, e) <==> InSet(s, e) || InRange(v, e)
    ensures t == Insert(s, v)
  {
    InsertCanonical(s, v);
    forall e ensures InSet(t, e) <==> InSet(Insert(s, v), e) { InsertMembers(s, v, e); }
    CanonicalUnique(t, Insert(s, v));
  }

  lemma MergeSymmetric(s: Range, t: Range)
    requires s.Ok() && t.Ok()
    ensures Merge(s, t).ok == Merge(t, s).ok
    ensures Merge(s, t).ok ==> Merge(s, t).union == Merge(t, s).union
  {
  }

  lemma {:induction false} InsertSkip(s: seq<Range>, v: Range, i: nat)
    requires v.Ok() && i <= |s| && forall k | 0 <= k < |s| :: s[k].Ok()
    requires forall k | 0 <= k < i :: Apart(s[k], v)
    ensures Insert(s, v) == s[..i] + Insert(s[i..], v)
    decreases i
  {
    hide Merge;
    if i > 0 {
      InsertSkip(s[1..], v, i - 1);
      assert s[1..][i - 1..] == s[i..];
      assert s[..i] == [s[0]] + s[1..][..i - 1];
    } else {
      assert s[i..] == s;
    }
  }

  /** The walk has kept s[..i], absorbed s[i..j] into cur, and s[j..] is still to come. */
  ghost predicate Absorbing(s: seq<Range>, v: Range, i: nat, j: nat, cur: Range)
    requires v.Ok() && i < j <= |s| && forall k | 0 <= k < |s| :: s[k].Ok()
  {
    && cur.Ok()
    && (j < |s| ==> 0 < cur.start <= s[i].start)
    && Insert(s, v) == s[..i] + Insert(s[j..], cur)
  }

  lemma AbsorbStep(s: seq<Range>, v: Range, i: nat, j: nat, cur: Range)
    requires Canonical(s) && v.Ok() && i < j < |s|
    requires Absorbing(s, v, i, j, cur)
    ensures Merge(cur, s[j]).ok ==> Absorbing(s, v, i, j + 1, Merge(cur, s[j]).union)
    ensures !Merge(cur, s[j]).ok ==> Insert(s, v) == s[..i] + [cur] + s[j..]
  {
    assert Apart(s[i], s[j]);
    MergeSymmetric(cur, s[j]);
    assert s[j..][0] == s[j] && s[j..][1..] == s[j + 1..];
  }

  /** i is where the binary search puts v. */
  ghost predicate Position(s: seq<Range>, v: Range, i: nat) {
    && i <= |s|
    && (forall k | 0 <= k < i :: s[k].Less(v.start))
    && (forall k | i <= k < |s| :: !s[k].Less(v.start))
  }

  /** The walk when v merges with the range before its position. */
  lemma StartBefore(s: seq<Range>, v: Range, i: nat)
    requires Canonical(s) && v.Ok() && Position(s, v, i)
    requires i > 0 && Merge(s[i - 1], v).ok
    ensures Absorbing(s, v, i - 1, i, Merge(s[i - 1], v).union)
    ensures i == |s| ==> Insert(s, v) == s[i - 1 := Merge(s[i - 1], v).union]
  {
    forall k | 0 <= k < i - 1 ensures Apart(s[k], v) { assert Apart(s[k], s[i - 1]); }
    var m := Merge(s[i - 1], v).union;
    assert i < |s| ==> Apart(s[i - 1], s[i]);
    assert i < |s| ==> 0 < m.start <= s[i - 1].start;
    hide Merge, Insert, Position, Canonical;
    InsertSkip(s, v, i - 1);
    assert s[i - 1..][0] == s[i - 1] && s[i - 1..][1..] == s[i..];
    InsertMerges(s[i - 1..], v);
    assert i == |s| ==> s[..i - 1] + [m] == s[i - 1 := m];
  }

  lemma InsertStops(t: seq<Range>, v: Range)
    requires v.Ok() && t != [] && (forall k | 0 <= k < |t| :: t[k].Ok()) && !Merge(t[0], v).ok && !Apart(t[0], v)
    ensures Insert(t, v) == [v] + t
  {
    hide Merge;
  }

  lemma InsertMerges(t: seq<Range>, v: Range)
    requires v.Ok() && t != [] && (forall k | 0 <= k < |t| :: t[k].Ok()) && Merge(t[0], v).ok
    ensures Insert(t, v) == Insert(t[1..], Merge(t[0], v).union)
    ensures |t| == 1 ==> Insert(t, v) == [Merge(t[0], v).union]
  {
    hide Merge;
  }

  /** The walk when it does not: v merges with the range at its position, or goes there. */
  lemma StartAt(s: seq<Range>, v: Range, i: nat)
    requires Canonical(s) && v.Ok() && Position(s, v, i)
    requires i > 0 ==> !Merge(s[i - 1], v).ok
    ensures i < |s| && Merge(s[i], v).ok ==> Absorbing(s, v, i, i + 1, Merge(s[i], v).union)
    ensures (i < |s| ==> !Merge(s[i], v).ok) ==> Insert(s, v) == s[..i] + [v] + s[i..]
  {
    forall k | 0 <= k < i ensures Apart(s[k], v) { assert k < i - 1 ==> Apart(s[k], s[i - 1]); }
    assert i + 1 < |s| ==> Apart(s[i], s[i + 1]);
    if i < |s| {
      assert s[i..][0] == s[i] && s[i..][1..] == s[i + 1..];
      var m := Merge(s[i], v);
      assert m.ok && i + 1 < |s| ==> 0 < m.union.start <= s[i].start;
      assert !Apart(s[i], v);
      hide Merge, Position, Canonical, Insert;
      InsertSkip(s, v, i);
      if m.ok { InsertMerges(s[i..], v); } else { InsertStops(s[i..], v); }
    } else {
      InsertSkip(s, v, i);
    }
  }

  // ---------------------------------------------------------------- enumeration

  ghost predicate Static(s: seq<Range>) {
    forall r | r in s :: r.stop != 0
  }

  /** All numbers of a static list, in list order. */
  function NumsOf(s: seq<Range>): (ns: seq<uint32>)
    requires forall i | 0 <= i < |s| :: s[i].Ok() && s[i].stop != 0
  {
    if s == [] then []
    else
      var last := s[|s| - 1];
      assert last.Ok();
      NumsOf(s[..|s| - 1]) + Count(last.start, last.stop + 1)
  }

  /** The numbers from lo up to, but not including, end. */
  function Count(lo: uint32, end: nat): (ns: seq<uint32>)
    requires lo <= end <= MAX_UINT32 + 1
  {
    seq(end - lo, k requires 0 <= k < end - lo => lo + k)
  }

  ghost predicate Ascending(ns: seq<nat>) {
    forall i, j | 0 <= i < j < |ns| :: ns[i] < ns[j]
  }

  lemma InSetSnoc(s: seq<Range>, e: Elem)
    requires s != []
    ensures InSet(s, e) <==> InSet(s[..|s| - 1], e) || InRange(s[|s| - 1], e)
  {
    assert s == s[..|s| - 1] + [s[|s| - 1]];
  }

  lemma CountMembers(lo: uint32, end: nat, n: nat)
    requires lo <= end <= MAX_UINT32 + 1
    ensures n in Count(lo, end) <==> lo <= n < end
  {
    if lo <= n < end { assert Count(lo, end)[n - lo] == n; }
  }

  lemma {:induction false} NumsOfMembers(s: seq<Range>, n: nat)
    requires forall i | 0 <= i < |s| :: s[i].Ok() && s[i].stop != 0
    ensures n in NumsOf(s) <==> InSet(s, Num(n))
    decreases |s|
  {
    if s != [] {
      var front, last := s[..|s| - 1], s[|s| - 1];
      assert last.Ok();
      NumsOfMembers(front, n);
      CountMembers(last.start, last.stop + 1, n);
      InSetSnoc(s, Num(n));
      hide InSet, Count;
    }
  }

  lemma {:induction false} NumsOfAscending(s: seq<Range>)
    requires Canonical(s) && Static(s)
    ensures Ascending(NumsOf(s))
    decreases |s|
  {
    if s != [] {
      var front, last := s[..|s| - 1], s[|s| - 1];
      assert last.Ok();
      NumsOfAscending(front);
      var xs := NumsOf(front);
      forall x | x in xs ensures x < last.start {
        NumsOfMembers(front, x);
        var r :| r in front && InRange(r, Num(x));
        var k :| 0 <= k < |front| && front[k] == r;
        assert Apart(s[k], s[|s| - 1]);
      }
      var ys := Count(last.start, last.stop + 1);
      forall i, j | 0 <= i < j < |xs + ys| ensures (xs + ys)[i] < (xs + ys)[j] {
        assert i < |xs| ==> xs[i] in xs;
      }
    }
  }

  /** A static canonical list enumerates exactly its members, in strictly increasing order. */
  lemma NumsOfExact(s: seq<Range>)
    requires Canonical(s) && Static(s)
    ensures Ascending(NumsOf(s))
    ensures forall n: nat :: n in NumsOf(s) <==> InSet(s, Num(n))
  {
    NumsOfAscending(s);
    forall n: nat ensures n in NumsOf(s) <==> InSet(s, Num(n)) { NumsOfMembers(s, n); }
  }

  /** Strictly increasing lists with the same elements are equal. */
  lemma {:induction false} AscendingUnique(a: seq<nat>, b: seq<nat>)
    requires Ascending(a) && Ascending(b)
    requires forall n: nat :: n in a <==> n in b
    ensures a == b
    decreases |a|
  {
    assert b != [] ==> b[0] in b;
    if a != [] {
      assert a[0] in a;
      assert b != [];
      assert a[0] == b[0];
      forall n: nat ensures n in a[1..] <==> n in b[1..] {
        assert a == [a[0]] + a[1..] && b == [b[0]] + b[1..];
        if n in a[1..] { assert n != a[0] && n in a; }
        if n in b[1..] { assert n != b[0] && n in b; }
      }
      AscendingUnique(a[1..], b[1..]);
      assert a == [a[0]] + a[1..] && b == [b[0]] + b[1..];
    }
  }

  /** AddNum applied to each number in turn. */
  function AddNums(s: seq<Range>, ns: seq<uint32>): (r: seq<Range>)
    requires forall i | 0 <= i < |s| :: s[i].Ok()
    ensures forall i | 0 <= i < |r| :: r[i].Ok()
    decreases |ns|
  {
    if ns == [] then s
    else
      var n := ns[|ns| - 1];
      InsertOk(AddNums(s, ns[..|ns| - 1]), Range(n, n));
      Insert(AddNums(s, ns[..|ns| - 1]), Range(n, n))
  }

  lemma {:induction false} InsertOk(s: seq<Range>, v: Range)
    requires v.Ok() && forall i | 0 <= i < |s| :: s[i].Ok()
    ensures forall i | 0 <= i < |Insert(s, v)| :: Insert(s, v)[i].Ok()
    decreases |s|
  {
    if s != [] {
      var m := Merge(s[0], v);
      if m.ok { InsertOk(s[1..], m.union); }
      else if Apart(s[0], v) { InsertOk(s[1..], v); }
    }
  }

  ghost function ElemOf(q: uint32): (e: Elem) {
    if q == 0 then Star else Num(q)
  }

  lemma {:induction false} AddNumsMembers(s: seq<Range>, ns: seq<uint32>, e: Elem)
    requires Canonical(s)
    ensures Canonical(AddNums(s, ns))
    ensures InSet(AddNums(s, ns), e) <==> InSet(s, e) || exists n | n in ns :: e == ElemOf(n)
    decreases |ns|
  {
    if ns != [] {
      var front, n := ns[..|ns| - 1], ns[|ns| - 1];
      assert ns == front + [n];
      AddNumsMembers(s, front, e);
      InsertCanonical(AddNums(s, front), Range(n, n));
      InsertMembers(AddNums(s, front), Range(n, n), e);
      assert InRange(Range(n, n), e) <==> e == ElemOf(n);
    }
  }

  /** Re-inserting the enumerated numbers one by one rebuilds the set. */
  lemma NumsRebuild(s: seq<Range>)
    requires Canonical(s) && Static(s)
    ensures AddNums([], NumsOf(s)) == s
  {
    NumsOfExact(s);
    forall e ensures InSet(AddNums([], NumsOf(s)), e) <==> InSet(s, e) {
      AddNumsMembers([], NumsOf(s), e);
      if e.Num? && e.n in NumsOf(s) { assert e == ElemOf(e.n); }
    }
    AddNumsMembers([], NumsOf(s), Star);
    CanonicalUnique(AddNums([], NumsOf(s)), s);
  }

  /** A set filled with ascending numbers enumerates exactly those numbers. */
  lemma AscendingRoundTrip(ns: seq<uint32>)
    requires Ascending(ns) && forall n | n in ns :: n != 0
    ensures Canonical(AddNums([], ns)) && Static(AddNums([], ns))
    ensures NumsOf(AddNums([], ns)) == ns
  {
    var s := AddNums([], ns);
    AddNumsMembers([], ns, Star);
    forall r | r in s ensures r.stop != 0 {
      assert r.stop == 0 ==> InRange(r, Star) && InSet(s, Star);
    }
    NumsOfExact(s);
    forall n: nat ensures n in NumsOf(s) <==> n in ns {
      AddNumsMembers([], ns, Num(n));
      if n in ns { assert Num(n) == ElemOf(n); }
    }
    AscendingUnique(NumsOf(s), ns);
  }

  // ---------------------------------------------------------------- the set object

  /** The editing part of Set.insert, on the slice it takes out of the set: i is where
      the binary search puts v.start. */
  method Absorb(s0: seq<Range>, v: Range, at: nat) returns (s: seq<Range>)
    requires Canonical(s0) && v.Ok() && Position(s0, v, at)
    ensures s == Insert(s0, v)
  {
    hide Merge, Insert;
    var i := at;
    s := s0;
    if i > 0 && Merge(s[i - 1], v).ok { StartBefore(s, v, i); } else { StartAt(s, v, i); }
    var merged := false;
    if i > 0 {
      var m := Merge(s[i - 1], v);
      s, merged := s[i - 1 := m.union], m.ok;
    }
    if i == |s| {
      if !merged {
        s := Inserted(s, i, v);
      }
      return;
    } else if merged {
      i := i - 1;
    } else {
      var m := Merge(s[i], v);
      s, merged := s[i := m.union], m.ok;
      if !merged {
        s := Inserted(s, i, v);
        return;
      }
    }
    s := AbsorbRest(s0, v, s, i);
  }

  /** The cascade of merges that follows when v was merged with the range at i. */
  method AbsorbRest(ghost s0: seq<Range>, ghost v: Range, s1: seq<Range>, i: nat) returns (s: seq<Range>)
    requires Canonical(s0) && v.Ok() && i < |s0| == |s1|
    requires s1[..i] == s0[..i] && s1[i + 1..] == s0[i + 1..]
    requires Absorbing(s0, v, i, i + 1, s1[i])
    ensures s == Insert(s0, v)
  {
    hide Merge;
    s := s1;
    var j := i + 1;
    while j < |s|
      invariant i < j <= |s| == |s0|
      invariant s[..i] == s0[..i] && s[j..] == s0[j..]
      invariant Absorbing(s0, v, i, j, s[i])
    {
      AbsorbStep(s0, v, i, j, s[i]);
      var m := Merge(s[i], s[j]);
      s := s[i := m.union];
      if !m.ok {
        if j > i + 1 {
          s := s[..i + 1] + s[j..];
        }
        assert s == s0[..i] + [s[i]] + s0[j..];
        return;
      }
      j := j + 1;
    }
    s := s[..i + 1];
    assert s == s0[..i] + [s[i]];
  }

  /** The list with v put at index i. */
  function Inserted(s: seq<Range>, i: nat, v: Range): (r: seq<Range>)
    requires i <= |s|
    ensures |r| == |s| + 1 && r[i] == v
    ensures forall k | 0 <= k < |s| :: r[if k < i then k else k + 1] == s[k]
  {
    s[..i] + [v] + s[i..]
  }

  /** An overlapping copy: moves the elements from i up to n one place to the right. */
  method ShiftRight(s: array<Range>, i: nat, n: nat)
    requires i <= n < s.Length
    modifies s
    ensures s[..i] == old(s[..i]) && s[i + 1..n + 1] == old(s[i..n]) && s[n + 1..] == old(s[n + 1..])
  {
    var k := n;
    while k > i
      invariant i <= k <= n
      invariant s[..k] == old(s[..k]) && s[k + 1..n + 1] == old(s[k..n]) && s[n + 1..] == old(s[n + 1..])
    {
      s[k] := s[k - 1];
      k := k - 1;
    }
  }

  /** A larger array that starts with the first n elements of s. */
  method Grown(s: array<Range>, n: nat, capacity: nat) returns (r: array<Range>)
    requires n <= s.Length && n < capacity
    ensures fresh(r) && r.Length == capacity && r[..n] == s[..n]
  {
    r := new Range[capacity];
    for k := 0 to n
      invariant r[..k] == s[..k]
    {
      r[k] := s[k];
    }
  }

  /** Set.insertAt on a slice, the first n elements of the array s: in place where the array has room,
      otherwise in a new array, which leaves the old one alone. */
  method InsertAt(s: array<Range>, n: nat, i: nat, v: Range) returns (r: array<Range>)
    requires i <= n <= s.Length
    modifies s
    ensures n < r.Length && r[..n + 1] == Inserted(old(s[..n]), i, v)
    ensures if n < s.Length then r == s && s[n + 1..] == old(s[n + 1..]) else fresh(r) && s[..] == old(s[..])
  {
    r := s;
    if n == s.Length {
      r := Grown(s, n, if i == n then n + 1 else 2 * n);
    }
    ghost var before := r[..n];
    ShiftRight(r, i, n);
    r[i] := v;
    assert r[..n + 1] == r[..i] + [v] + r[i + 1..n + 1];
    assert before[..i] == r[..i] && before[i..] == r[i + 1..n + 1];
  }

  class Set {
    var ranges: seq<Range>

    ghost predicate Valid()
      reads this
    {
      Canonical(ranges)
    }

    constructor ()
      ensures Valid() && ranges == []
    {
      ranges := [];
    }

    /** Binary search: the first range that does not lie before q. */
    method Search(q: uint32) returns (i: nat, ok: bool)
      requires Valid()
      ensures i <= |ranges|
      ensures forall k | 0 <= k < i :: ranges[k].Less(q)
      ensures forall k | i <= k < |ranges| :: !ranges[k].Less(q)
      ensures ok <==> i < |ranges| && ranges[i].Contains(q)
      ensures ok <==> InSet(ranges, ElemOf(q))
    {
      var lo, hi := 0, |ranges| - 1;
      while lo < hi
        invariant 0 <= lo <= hi + 1 <= |ranges|
        invariant |ranges| > 0 ==> lo <= hi
        invariant forall k | 0 <= k < lo :: ranges[k].Less(q)
        invariant forall k | hi < k < |ranges| :: !ranges[k].Less(q)
        invariant hi < |ranges| - 1 ==> !ranges[hi].Less(q)
      {
        var mid := (lo + hi) / 2;
        if ranges[mid].Less(q) {
          forall k | 0 <= k < mid ensures ranges[k].Less(q) { assert Apart(ranges[k], ranges[mid]); }
          lo := mid + 1;
        } else {
          forall k | mid < k < |ranges| ensures !ranges[k].Less(q) { assert Apart(ranges[mid], ranges[k]); }
          hi := mid;
        }
      }
      if hi < 0 || ranges[lo].Less(q) {
        i, ok := |ranges|, false;
      } else {
        i, ok := lo, ranges[lo].Contains(q);
      }
      FoundByFirst(ranges, q, i);
    }

    /** Set.Contains agrees with linear membership; "*" itself is never contained. */
    method Contains(q: uint32) returns (b: bool)
      requires Valid()
      ensures b <==> q != 0 && InSet(ranges, Num(q))
    {
      var _, ok := Search(q);
      if ok {
        b := q != 0;
      } else {
        b := false;
      }
    }

    /** Adds a range, merging it in place with every range it touches. */
    method InsertRange(v: Range)
      requires Valid() && v.Ok()
      modifies this
      ensures Valid() && ranges == Insert(old(ranges), v)
    {
      InsertCanonical(ranges, v);
      var i, _ := Search(v.start);
      ranges := Absorb(ranges, v, i);
    }

    method AddNum(ns: seq<uint32>)
      requires Valid()
      modifies this
      ensures Valid() && ranges == AddNums(old(ranges), ns)
    {
      ghost var s := ranges;
      for i := 0 to |ns|
        invariant Valid() && ranges == AddNums(s, ns[..i])
      {
        assert ns[..i + 1][..i] == ns[..i];
        InsertRange(Range(ns[i], ns[i]));
      }
      assert ns[..|ns|] == ns;
    }

    method AddRange(start: uint32, stop: uint32)
      requires Valid()
      modifies this
      ensures Valid() && ranges == Insert(old(ranges), Ordered(start, stop))
    {
      if (stop < start && stop != 0) || start == 0 {
        InsertRange(Range(stop, start));
      } else {
        InsertRange(Range(start, stop));
      }
    }

    /** AddSet: afterwards the members are those of both sets. */
    method AddSet(t: seq<Range>)
      requires Valid() && Canonical(t)
      modifies this
      ensures Valid()
      ensures forall e :: InSet(ranges, e) <==> InSet(old(ranges), e) || InSet(t, e)
    {
      ghost var s := ranges;
      for i := 0 to |t|
        invariant Valid()
        invariant forall e :: InSet(ranges, e) <==> InSet(s, e) || InSet(t[..i], e)
      {
        ghost var before := ranges;
        InsertRange(t[i]);
        forall e ensures InSet(ranges, e) <==> InSet(s, e) || InSet(t[..i + 1], e) {
          InsertMembers(before, t[i], e);
          InSetSnoc(t[..i + 1], e);
          assert t[..i + 1][..i] == t[..i];
        }
      }
      assert t[..|t|] == t;
    }

    /** Nums: every number of a static set in increasing order; none of a dynamic one.
        The counter wraps at 32 bits, so no range may end at 4294967295. */
    method Nums() returns (nums: seq<uint32>, ok: bool)
      requires Valid()
      requires forall r | r in ranges :: r.stop < MAX_UINT32
      ensures ok <==> Static(ranges)
      ensures ok ==> nums == NumsOf(ranges)
      ensures !ok ==> nums == []
    {
      nums, ok := [], true;
      for i := 0 to |ranges|
        invariant Static(ranges[..i]) && nums == NumsOf(ranges[..i])
      {
        var r := ranges[i];
        if r.start == 0 || r.stop == 0 {
          return [], false;
        }
        assert ranges[..i + 1][..i] == ranges[..i];
        var n := r.start;
        while n <= r.stop
          invariant r.start <= n <= r.stop + 1
          invariant nums == NumsOf(ranges[..i]) + Count(r.start, n)
          decreases r.stop + 1 - n
        {
          nums := nums + [n];
          n := (n + 1) % 0x1_0000_0000;
        }
      }
      assert ranges[..|ranges|] == ranges;
    }
  }

  lemma FoundByFirst(s: seq<Range>, q: uint32, i: nat)
    requires Canonical(s) && i <= |s|
    requires forall k | 0 <= k < i :: s[k].Less(q)
    requires forall k | i <= k < |s| :: !s[k].Less(q)
    ensures InSet(s, ElemOf(q)) <==> i < |s| && s[i].Contains(q)
  {
    if InSet(s, ElemOf(q)) {
      var r :| r in s && InRange(r, ElemOf(q));
      var k :| 0 <= k < |s| && s[k] == r;
      assert i < k ==> Apart(s[i], s[k]);
    }
    if i < |s| && s[i].Contains(q) { assert s[i] in s; }
  }
}
