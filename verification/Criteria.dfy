/** SEARCH criteria (search.go) and the test of a message against them (imapserver/imapmemserver/message.go). */
module Criteria {
  import opened Text
  import opened NumSet

  // ---------------------------------------------------------------- dates

  /** A calendar day. As in Go, 1 January of year 1 is the zero time and means "not set". */
  datatype Date = Date(year: nat, month: nat, day: nat)

  const ZERO: Date := Date(1, 1, 1)

  predicate IsZero(t: Date) { t == ZERO }

  predicate Earlier(a: Date, b: Date) {
    a.year < b.year || (a.year == b.year && (a.month < b.month || (a.month == b.month && a.day < b.day)))
  }

  predicate IsLeap(y: nat) { y % 4 == 0 && (y % 100 != 0 || y % 400 == 0) }

  function DaysIn(y: nat, m: nat): (n: nat) {
    if m == 2 then (if IsLeap(y) then 29 else 28)
    else if m == 4 || m == 6 || m == 9 || m == 11 then 30
    else 31
  }

  predicate ValidDate(t: Date) {
    1 <= t.month <= 12 && 1 <= t.day <= DaysIn(t.year, t.month)
  }

  /** The day after: Add(24 * time.Hour). */
  function NextDay(t: Date): (r: Date) {
    if t.day < DaysIn(t.year, t.month) then Date(t.year, t.month, t.day + 1)
    else if t.month < 12 then Date(t.year, t.month + 1, 1)
    else Date(t.year + 1, 1, 1)
  }

  // ---------------------------------------------------------------- criteria

  /** A UID set, or the marker for the last search result. */
  datatype UidSet = Uids(s: seq<Range>) | SavedResult

  datatype Field = Field(key: string, value: string)

  datatype Pair = Pair(left: Criteria, right: Criteria)

  datatype Criteria = Criteria(
    seqNum: seq<seq<Range>>, uid: seq<UidSet>,
    since: Date, before: Date, sentSince: Date, sentBefore: Date,
    header: seq<Field>, body: seq<string>, text: seq<string>,
    flag: seq<string>, notFlag: seq<string>,
    larger: int, smaller: int,
    not: seq<Criteria>, or: seq<Pair>)

  const EMPTY: Criteria :=
    Criteria([], [], ZERO, ZERO, ZERO, ZERO, [], [], [], [], [], 0, 0, [], [])

  /** A message as SEARCH sees it. Header, body and text matching belong to the MIME library;
      header keys are looked up in lower case. */
  datatype Message = Message(
    uid: nat, date: Date, sent: Option<Date>, size: nat, flags: set<string>,
    headerMatch: (string, string) -> bool, bodyMatch: string -> bool, textMatch: string -> bool)

  predicate MatchDate(t: Date, since: Date, before: Date) {
    (IsZero(since) || !Earlier(t, since)) && (IsZero(before) || Earlier(t, before))
  }

  ghost predicate SeqHolds(n: nat, s: seq<Range>) { n != 0 && InSet(s, Num(n)) }

  ghost predicate UidHolds(m: Message, u: UidSet) { u.Uids? && m.uid != 0 && InSet(u.s, Num(m.uid)) }

  predicate FieldHolds(m: Message, f: Field) { m.headerMatch(Lower(f.key), f.value) }

  predicate FlagHolds(m: Message, f: string) { Lower(f) in m.flags }

  predicate SizeHolds(m: Message, larger: int, smaller: int) {
    (larger == 0 || m.size > larger) && (smaller == 0 || m.size < smaller)
  }

  predicate SentHolds(m: Message, since: Date, before: Date) {
    (IsZero(since) && IsZero(before)) || (m.sent.Some? && MatchDate(m.sent.value, since, before))
  }

  /** Everything but the nested criteria. */
  ghost predicate FlatMatches(n: nat, m: Message, c: Criteria) {
    && (forall i | 0 <= i < |c.seqNum| :: SeqHolds(n, c.seqNum[i]))
    && (forall i | 0 <= i < |c.uid| :: UidHolds(m, c.uid[i]))
    && MatchDate(m.date, c.since, c.before)
    && (forall i | 0 <= i < |c.flag| :: FlagHolds(m, c.flag[i]))
    && (forall i | 0 <= i < |c.notFlag| :: !FlagHolds(m, c.notFlag[i]))
    && SizeHolds(m, c.larger, c.smaller)
    && (forall i | 0 <= i < |c.header| :: FieldHolds(m, c.header[i]))
    && SentHolds(m, c.sentSince, c.sentBefore)
    && (forall i | 0 <= i < |c.text| :: m.textMatch(c.text[i]))
    && (forall i | 0 <= i < |c.body| :: m.bodyMatch(c.body[i]))
  }

  /** message.search. */
  ghost predicate Matches(n: nat, m: Message, c: Criteria) {
    && FlatMatches(n, m, c)
    && (forall i | 0 <= i < |c.not| :: !Matches(n, m, c.not[i]))
    && (forall i | 0 <= i < |c.or| :: Matches(n, m, c.or[i].left) || Matches(n, m, c.or[i].right))
  }

  // ---------------------------------------------------------------- And

  function IntersectSince(a: Date, b: Date): (r: Date) {
    if IsZero(a) then b else if IsZero(b) then a else if Earlier(b, a) then a else b
  }

  function IntersectBefore(a: Date, b: Date): (r: Date) {
    if IsZero(a) then b else if IsZero(b) then a else if Earlier(a, b) then a else b
  }

  /** SearchCriteria.And: the receiver after it has taken in the other criteria. */
  function And(a: Criteria, b: Criteria): (r: Criteria) {
    Criteria(
      a.seqNum + b.seqNum, a.uid + b.uid,
      IntersectSince(a.since, b.since), IntersectBefore(a.before, b.before),
      IntersectSince(a.sentSince, b.sentSince), IntersectBefore(a.sentBefore, b.sentBefore),
      a.header + b.header, a.body + b.body, a.text + b.text, a.flag + b.flag, a.notFlag + b.notFlag,
      if a.larger == 0 || b.larger > a.larger then b.larger else a.larger,
      if a.smaller == 0 || b.smaller < a.smaller then b.smaller else a.smaller,
      a.not + b.not, a.or + b.or)
  }

  /** The receiver's size limit gets lost. */
  predicate LosesLimit(a: Criteria, b: Criteria) { a.smaller != 0 && b.smaller == 0 }

  lemma IntersectDates(t: Date, a: Date, b: Date, x: Date, y: Date)
    ensures MatchDate(t, IntersectSince(a, b), IntersectBefore(x, y)) <==> MatchDate(t, a, x) && MatchDate(t, b, y)
    ensures IsZero(IntersectSince(a, b)) <==> IsZero(a) && IsZero(b)
    ensures IsZero(IntersectBefore(x, y)) <==> IsZero(x) && IsZero(y)
  {
  }

  lemma IntersectSent(m: Message, a: Date, b: Date, x: Date, y: Date)
    ensures SentHolds(m, IntersectSince(a, b), IntersectBefore(x, y)) <==> SentHolds(m, a, x) && SentHolds(m, b, y)
  {
    IntersectDates(if m.sent.Some? then m.sent.value else ZERO, a, b, x, y);
    hide IntersectSince, IntersectBefore;
  }

  lemma AndSeqs<T>(xs: seq<T>, ys: seq<T>, p: T -> bool)
    ensures (forall i | 0 <= i < |xs + ys| :: p((xs + ys)[i]))
            <==> (forall i | 0 <= i < |xs| :: p(xs[i])) && (forall i | 0 <= i < |ys| :: p(ys[i]))
  {
    if forall i | 0 <= i < |xs + ys| :: p((xs + ys)[i]) {
      forall i | 0 <= i < |xs| ensures p(xs[i]) { assert (xs + ys)[i] == xs[i]; }
      forall i | 0 <= i < |ys| ensures p(ys[i]) { assert (xs + ys)[|xs| + i] == ys[i]; }
    }
  }

  lemma AndFlat(n: nat, m: Message, a: Criteria, b: Criteria)
    requires a.larger >= 0 && a.smaller >= 0 && b.larger >= 0 && b.smaller >= 0 && !LosesLimit(a, b)
    ensures FlatMatches(n, m, And(a, b)) <==> FlatMatches(n, m, a) && FlatMatches(n, m, b)
  {
    hide MatchDate, IntersectSince, IntersectBefore, SentHolds, SeqHolds, UidHolds, FlagHolds, FieldHolds;
    IntersectDates(m.date, a.since, b.since, a.before, b.before);
    IntersectSent(m, a.sentSince, b.sentSince, a.sentBefore, b.sentBefore);
    AndSeqs(a.seqNum, b.seqNum, s => SeqHolds(n, s));
    AndSeqs(a.uid, b.uid, u => UidHolds(m, u));
    AndSeqs(a.flag, b.flag, f => FlagHolds(m, f));
    AndSeqs(a.notFlag, b.notFlag, f => !FlagHolds(m, f));
    AndSeqs(a.header, b.header, f => FieldHolds(m, f));
    AndSeqs(a.text, b.text, m.textMatch);
    AndSeqs(a.body, b.body, m.bodyMatch);
  }

  /** And is conjunction unless it loses the receiver's size limit. */
  lemma AndMatches(n: nat, m: Message, a: Criteria, b: Criteria)
    requires a.larger >= 0 && a.smaller >= 0 && b.larger >= 0 && b.smaller >= 0 && !LosesLimit(a, b)
    ensures Matches(n, m, And(a, b)) <==> Matches(n, m, a) && Matches(n, m, b)
  {
    AndFlat(n, m, a, b);
    AndSeqs(a.not, b.not, c => !Matches(n, m, c));
    AndSeqs(a.or, b.or, (p: Pair) => Matches(n, m, p.left) || Matches(n, m, p.right));
  }

  /** When it does, it behaves as if the receiver had no upper size limit. */
  lemma AndLosesLimit(n: nat, m: Message, a: Criteria, b: Criteria)
    requires a.larger >= 0 && a.smaller >= 0 && b.larger >= 0 && LosesLimit(a, b)
    ensures Matches(n, m, And(a, b)) <==> Matches(n, m, a.(smaller := 0)) && Matches(n, m, b)
  {
    assert And(a, b) == And(a.(smaller := 0), b);
    AndMatches(n, m, a.(smaller := 0), b);
  }

  ghost predicate AndIsConjunction(a: Criteria, b: Criteria) {
    forall n: nat, m: Message :: Matches(n, m, And(a, b)) <==> Matches(n, m, a) && Matches(n, m, b)
  }

  /** For upper size limits x and y, And is conjunction for all criteria with these limits
      exactly when y is set or x is not. */
  lemma AndExactly(x: nat, y: nat)
    ensures (forall a: Criteria, b: Criteria | a.larger >= 0 && b.larger >= 0 && a.smaller == x && b.smaller == y :: AndIsConjunction(a, b))
            <==> (y != 0 || x == 0)
  {
    if y != 0 || x == 0 {
      forall a: Criteria, b: Criteria | a.larger >= 0 && b.larger >= 0 && a.smaller == x && b.smaller == y ensures AndIsConjunction(a, b) {
        forall n: nat, m: Message ensures Matches(n, m, And(a, b)) <==> Matches(n, m, a) && Matches(n, m, b) {
          AndMatches(n, m, a, b);
        }
      }
    } else {
      var a, b := EMPTY.(smaller := x), EMPTY;
      var m := Message(1, ZERO, None, x, {}, (_, _) => true, _ => true, _ => true);
      assert And(a, b) == EMPTY;
      assert Matches(1, m, And(a, b)) && !Matches(1, m, a);
      assert !AndIsConjunction(a, b);
    }
  }

  // ---------------------------------------------------------------- the test as the code runs it

  /** All number sets are in canonical form and hold 32-bit numbers. */
  ghost predicate SetsOk(c: Criteria) {
    && (forall i | 0 <= i < |c.seqNum| :: Canonical(c.seqNum[i]))
    && (forall i | 0 <= i < |c.uid| && c.uid[i].Uids? :: Canonical(c.uid[i].s))
    && (forall i | 0 <= i < |c.not| :: SetsOk(c.not[i]))
    && (forall i | 0 <= i < |c.or| :: SetsOk(c.or[i].left) && SetsOk(c.or[i].right))
  }

  method SetContains(s: seq<Range>, q: uint32) returns (b: bool)
    requires Canonical(s)
    ensures b <==> q != 0 && InSet(s, Num(q))
  {
    var numSet := new Set();
    numSet.ranges := s;
    b := numSet.Contains(q);
  }

  method SearchNumbers(n: uint32, m: Message, c: Criteria) returns (b: bool)
    requires SetsOk(c) && m.uid <= MAX_UINT32
    ensures b <==> (forall i | 0 <= i < |c.seqNum| :: SeqHolds(n, c.seqNum[i]))
                   && (forall i | 0 <= i < |c.uid| :: UidHolds(m, c.uid[i]))
  {
    for i := 0 to |c.seqNum|
      invariant forall k | 0 <= k < i :: SeqHolds(n, c.seqNum[k])
    {
      var contained := SetContains(c.seqNum[i], n);
      if n == 0 || !contained { return false; }
    }
    for i := 0 to |c.uid|
      invariant forall k | 0 <= k < i :: UidHolds(m, c.uid[k])
    {
      if c.uid[i].SavedResult? { return false; }
      var contained := SetContains(c.uid[i].s, m.uid);
      if !contained { return false; }
    }
    b := true;
  }

  method SearchFlags(m: Message, c: Criteria) returns (b: bool)
    ensures b <==> (forall i | 0 <= i < |c.flag| :: FlagHolds(m, c.flag[i]))
                   && (forall i | 0 <= i < |c.notFlag| :: !FlagHolds(m, c.notFlag[i]))
  {
    for i := 0 to |c.flag|
      invariant forall k | 0 <= k < i :: FlagHolds(m, c.flag[k])
    {
      if !(Lower(c.flag[i]) in m.flags) { return false; }
    }
    for i := 0 to |c.notFlag|
      invariant forall k | 0 <= k < i :: !FlagHolds(m, c.notFlag[k])
    {
      if Lower(c.notFlag[i]) in m.flags { return false; }
    }
    b := true;
  }

  method SearchContents(m: Message, c: Criteria) returns (b: bool)
    ensures b <==> (forall i | 0 <= i < |c.header| :: FieldHolds(m, c.header[i]))
                   && SentHolds(m, c.sentSince, c.sentBefore)
                   && (forall i | 0 <= i < |c.text| :: m.textMatch(c.text[i]))
                   && (forall i | 0 <= i < |c.body| :: m.bodyMatch(c.body[i]))
  {
    for i := 0 to |c.header|
      invariant forall k | 0 <= k < i :: FieldHolds(m, c.header[k])
    {
      if !m.headerMatch(Lower(c.header[i].key), c.header[i].value) { return false; }
    }
    if !IsZero(c.sentSince) || !IsZero(c.sentBefore) {
      if m.sent.None? { return false; }
      if !MatchDate(m.sent.value, c.sentSince, c.sentBefore) { return false; }
    }
    for i := 0 to |c.text|
      invariant forall k | 0 <= k < i :: m.textMatch(c.text[k])
    {
      if !m.textMatch(c.text[i]) { return false; }
    }
    for i := 0 to |c.body|
      invariant forall k | 0 <= k < i :: m.bodyMatch(c.body[k])
    {
      if !m.bodyMatch(c.body[i]) { return false; }
    }
    b := true;
  }

  /** message.search with its loops. */
  method Search(n: uint32, m: Message, c: Criteria) returns (b: bool)
    requires SetsOk(c) && m.uid <= MAX_UINT32
    ensures b <==> Matches(n, m, c)
    decreases c
  {
    var numbers := SearchNumbers(n, m, c);
    if !numbers { return false; }
    if !MatchDate(m.date, c.since, c.before) { return false; }
    var flags := SearchFlags(m, c);
    if !flags { return false; }
    if c.larger != 0 && m.size <= c.larger { return false; }
    if c.smaller != 0 && m.size >= c.smaller { return false; }
    var contents := SearchContents(m, c);
    if !contents { return false; }
    for i := 0 to |c.not|
      invariant forall k | 0 <= k < i :: !Matches(n, m, c.not[k])
    {
      var r := Search(n, m, c.not[i]);
      if r { return false; }
    }
    for i := 0 to |c.or|
      invariant forall k | 0 <= k < i :: Matches(n, m, c.or[k].left) || Matches(n, m, c.or[k].right)
    {
      var l := Search(n, m, c.or[i].left);
      if !l {
        var r := Search(n, m, c.or[i].right);
        if !r { return false; }
      }
    }
    b := true;
  }
}
