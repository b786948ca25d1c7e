/** The SEARCH keys of a criteria tree (imapclient/search.go) and what each adds on the server (imapserver/search.go). */
module SearchKeys {
  import opened Text
  import opened NumSet
  import opened NumSetText
  import opened Wire
  import opened Criteria

  datatype DateKey = On | Since | Before | SentOn | SentSince | SentBefore

  /** One search key without nested keys. */
  datatype Leaf =
    | SeqKey(numbers: seq<Range>)
    | UidKey(uids: UidSet)
    | DayKey(key: DateKey, date: Date)
    | HeaderKey(field: Field)
    | BodyKey(s: string)
    | TextKey(s: string)
    | FlagKey(flag: string)
    | UnflagKey(flag: string)
    | LargerKey(n: nat)
    | SmallerKey(n: nat)

  function SeqKeys(xs: seq<seq<Range>>): (r: seq<Leaf>)
    ensures |r| == |xs| && forall i | 0 <= i < |xs| :: r[i] == SeqKey(xs[i])
  {
    seq(|xs|, i requires 0 <= i < |xs| => SeqKey(xs[i]))
  }

  function UidKeys(xs: seq<UidSet>): (r: seq<Leaf>)
    ensures |r| == |xs| && forall i | 0 <= i < |xs| :: r[i] == UidKey(xs[i])
  {
    seq(|xs|, i requires 0 <= i < |xs| => UidKey(xs[i]))
  }

  function HeaderKeys(xs: seq<Field>): (r: seq<Leaf>)
    ensures |r| == |xs| && forall i | 0 <= i < |xs| :: r[i] == HeaderKey(xs[i])
  {
    seq(|xs|, i requires 0 <= i < |xs| => HeaderKey(xs[i]))
  }

  function BodyKeys(xs: seq<string>): (r: seq<Leaf>)
    ensures |r| == |xs| && forall i | 0 <= i < |xs| :: r[i] == BodyKey(xs[i])
  {
    seq(|xs|, i requires 0 <= i < |xs| => BodyKey(xs[i]))
  }

  function TextKeys(xs: seq<string>): (r: seq<Leaf>)
    ensures |r| == |xs| && forall i | 0 <= i < |xs| :: r[i] == TextKey(xs[i])
  {
    seq(|xs|, i requires 0 <= i < |xs| => TextKey(xs[i]))
  }

  function FlagKeys(xs: seq<string>): (r: seq<Leaf>)
    ensures |r| == |xs| && forall i | 0 <= i < |xs| :: r[i] == FlagKey(xs[i])
  {
    seq(|xs|, i requires 0 <= i < |xs| => FlagKey(xs[i]))
  }

  function UnflagKeys(xs: seq<string>): (r: seq<Leaf>)
    ensures |r| == |xs| && forall i | 0 <= i < |xs| :: r[i] == UnflagKey(xs[i])
  {
    seq(|xs|, i requires 0 <= i < |xs| => UnflagKey(xs[i]))
  }

  /** A day limit pair: ON for exactly one day, otherwise the limits that are set. */
  function DayKeys(since: Date, before: Date, on: DateKey, sinceKey: DateKey, beforeKey: DateKey): (r: seq<Leaf>) {
    if !IsZero(since) && !IsZero(before) && before == NextDay(since) then [DayKey(on, since)]
    else (if IsZero(since) then [] else [DayKey(sinceKey, since)])
         + (if IsZero(before) then [] else [DayKey(beforeKey, before)])
  }

  /** The keys that writeSearchKey prints before the nested ones, except SMALLER, the last. */
  function FrontLeaves(c: Criteria): (r: seq<Leaf>) {
    SeqKeys(c.seqNum) + UidKeys(c.uid)
    + DayKeys(c.since, c.before, On, Since, Before)
    + DayKeys(c.sentSince, c.sentBefore, SentOn, SentSince, SentBefore)
    + HeaderKeys(c.header) + BodyKeys(c.body) + TextKeys(c.text) + FlagKeys(c.flag) + UnflagKeys(c.notFlag)
    + (if c.larger > 0 then [LargerKey(c.larger)] else [])
  }

  function Leaves(c: Criteria): (r: seq<Leaf>) {
    FrontLeaves(c) + (if c.smaller > 0 then [SmallerKey(c.smaller)] else [])
  }

  // ---------------------------------------------------------------- what the server makes of a key

  function Title(s: string): (r: string) {
    if s == "" then "" else [UpperChar(s[0])] + s[1..]
  }

  const FIELD_KEYS: seq<string> := ["BCC", "CC", "FROM", "SUBJECT", "TO"]

  const SYSTEM_FLAGS: seq<string> := ["\\Answered", "\\Deleted", "\\Draft", "\\Flagged", "\\Seen"]

  const KNOWN_FLAGS: seq<string> :=
    ["\\Seen", "\\Answered", "\\Flagged", "\\Deleted", "\\Draft", "$Forwarded", "$MDNSent", "$Junk", "$NotJunk",
     "$Phishing", "$Important"]

  /** flagSearchKey: the key of a system flag, or nothing. */
  function FlagSearchKey(f: string): (k: string) {
    if f in SYSTEM_FLAGS then Upper(f[1..]) else ""
  }

  function SearchKeyFlag(key: string): (f: string) {
    "\\" + Title(Lower(key))
  }

  function FindFlag(known: seq<string>, s: string): (f: string)
    ensures Lower(f) == Lower(s)
  {
    if known == [] then s else if Lower(known[0]) == Lower(s) then known[0] else FindFlag(known[1..], s)
  }

  /** canonicalFlag of internal/internal.go: the usual spelling of a known flag. */
  function CanonicalFlag(s: string): (f: string)
    ensures Lower(f) == Lower(s)
  {
    FindFlag(KNOWN_FLAGS, s)
  }

  function ParsedFlag(f: string): (r: string) {
    if FlagSearchKey(f) != "" then SearchKeyFlag(FlagSearchKey(f)) else CanonicalFlag(f)
  }

  function ParsedField(f: Field): (r: Field) {
    if Upper(f.key) in FIELD_KEYS then Field(Title(Lower(Upper(f.key))), f.value) else f
  }

  function DayCriteria(key: DateKey, t: Date): (c: Criteria) {
    match key
    case On => EMPTY.(since := t, before := NextDay(t))
    case Since => EMPTY.(since := t)
    case Before => EMPTY.(before := t)
    case SentOn => EMPTY.(sentSince := t, sentBefore := NextDay(t))
    case SentSince => EMPTY.(sentSince := t)
    case SentBefore => EMPTY.(sentBefore := t)
  }

  /** The criteria under construction after one more key. */
  function AddLeaf(acc: Criteria, leaf: Leaf): (r: Criteria) {
    match leaf
    case SeqKey(s) => acc.(seqNum := acc.seqNum + [s])
    case UidKey(u) => acc.(uid := acc.uid + [u])
    case DayKey(k, t) => And(acc, DayCriteria(k, t))
    case HeaderKey(f) => acc.(header := acc.header + [ParsedField(f)])
    case BodyKey(s) => acc.(body := acc.body + [s])
    case TextKey(s) => acc.(text := acc.text + [s])
    case FlagKey(f) => acc.(flag := acc.flag + [ParsedFlag(f)])
    case UnflagKey(f) => acc.(notFlag := acc.notFlag + [ParsedFlag(f)])
    case LargerKey(n) => And(acc, EMPTY.(larger := n))
    case SmallerKey(n) => And(acc, EMPTY.(smaller := n))
  }

  function AddLeaves(leaves: seq<Leaf>): (r: Criteria) {
    if leaves == [] then EMPTY else AddLeaf(AddLeaves(leaves[..|leaves| - 1]), leaves[|leaves| - 1])
  }

  /** The criteria that the server ends up with. */
  function Normal(c: Criteria): (r: Criteria)
    decreases c, 1, 0
  {
    AddLeaves(Leaves(c)).(not := NormalNots(c, |c.not|), or := NormalOrs(c, |c.or|))
  }

  function NormalNots(c: Criteria, k: nat): (r: seq<Criteria>)
    requires k <= |c.not|
    ensures |r| == k
    decreases c, 0, k
  {
    if k == 0 then [] else NormalNots(c, k - 1) + [Normal(c.not[k - 1])]
  }

  function NormalOrs(c: Criteria, k: nat): (r: seq<Pair>)
    requires k <= |c.or|
    ensures |r| == k
    decreases c, 0, k
  {
    if k == 0 then []
    else NormalOrs(c, k - 1) + [Pair(Normal(c.or[k - 1].left), Normal(c.or[k - 1].right))]
  }

  // ---------------------------------------------------------------- meaning

  /** What a date key asks of a day. */
  predicate InDays(x: Date, key: DateKey, t: Date) {
    match key
    case On => !Earlier(x, t) && Earlier(x, NextDay(t))
    case SentOn => !Earlier(x, t) && Earlier(x, NextDay(t))
    case Since => !Earlier(x, t)
    case SentSince => !Earlier(x, t)
    case Before => Earlier(x, t)
    case SentBefore => Earlier(x, t)
  }

  predicate IsSentKey(key: DateKey) { key.SentOn? || key.SentSince? || key.SentBefore? }

  predicate DayHolds(m: Message, key: DateKey, t: Date) {
    if IsSentKey(key) then m.sent.Some? && InDays(m.sent.value, key, t) else InDays(m.date, key, t)
  }

  ghost predicate LeafHolds(n: nat, m: Message, leaf: Leaf) {
    match leaf
    case SeqKey(s) => SeqHolds(n, s)
    case UidKey(u) => UidHolds(m, u)
    case DayKey(k, t) => DayHolds(m, k, t)
    case HeaderKey(f) => FieldHolds(m, f)
    case BodyKey(s) => m.bodyMatch(s)
    case TextKey(s) => m.textMatch(s)
    case FlagKey(f) => FlagHolds(m, f)
    case UnflagKey(f) => !FlagHolds(m, f)
    case LargerKey(k) => m.size > k
    case SmallerKey(k) => m.size < k
  }

  ghost predicate AllHold(n: nat, m: Message, leaves: seq<Leaf>) {
    forall i | 0 <= i < |leaves| :: LeafHolds(n, m, leaves[i])
  }

  lemma AllHoldConcat(n: nat, m: Message, xs: seq<Leaf>, ys: seq<Leaf>)
    ensures AllHold(n, m, xs + ys) <==> AllHold(n, m, xs) && AllHold(n, m, ys)
  {
    AndSeqs(xs, ys, l => LeafHolds(n, m, l));
  }

  lemma DayKeysHold(n: nat, m: Message, since: Date, before: Date)
    ensures AllHold(n, m, DayKeys(since, before, On, Since, Before)) <==> MatchDate(m.date, since, before)
    ensures AllHold(n, m, DayKeys(since, before, SentOn, SentSince, SentBefore)) <==> SentHolds(m, since, before)
  {
    var a, b := DayKeys(since, before, On, Since, Before), DayKeys(since, before, SentOn, SentSince, SentBefore);
    assert |a| > 0 ==> (AllHold(n, m, a) ==> LeafHolds(n, m, a[0]));
    assert |a| > 1 ==> (AllHold(n, m, a) ==> LeafHolds(n, m, a[1]));
    assert |b| > 0 ==> (AllHold(n, m, b) ==> LeafHolds(n, m, b[0]));
    assert |b| > 1 ==> (AllHold(n, m, b) ==> LeafHolds(n, m, b[1]));
  }

  lemma NumberKeysHold(n: nat, m: Message, c: Criteria)
    ensures AllHold(n, m, SeqKeys(c.seqNum)) <==> forall i | 0 <= i < |c.seqNum| :: SeqHolds(n, c.seqNum[i])
    ensures AllHold(n, m, UidKeys(c.uid)) <==> forall i | 0 <= i < |c.uid| :: UidHolds(m, c.uid[i])
  {
    assert forall i | 0 <= i < |c.seqNum| :: LeafHolds(n, m, SeqKeys(c.seqNum)[i]) <==> SeqHolds(n, c.seqNum[i]);
    assert forall i | 0 <= i < |c.uid| :: LeafHolds(n, m, UidKeys(c.uid)[i]) <==> UidHolds(m, c.uid[i]);
  }

  lemma ContentKeysHold(n: nat, m: Message, c: Criteria)
    ensures AllHold(n, m, HeaderKeys(c.header)) <==> forall i | 0 <= i < |c.header| :: FieldHolds(m, c.header[i])
    ensures AllHold(n, m, BodyKeys(c.body)) <==> forall i | 0 <= i < |c.body| :: m.bodyMatch(c.body[i])
    ensures AllHold(n, m, TextKeys(c.text)) <==> forall i | 0 <= i < |c.text| :: m.textMatch(c.text[i])
  {
    assert forall i | 0 <= i < |c.header| :: LeafHolds(n, m, HeaderKeys(c.header)[i]) <==> FieldHolds(m, c.header[i]);
    assert forall i | 0 <= i < |c.body| :: LeafHolds(n, m, BodyKeys(c.body)[i]) <==> m.bodyMatch(c.body[i]);
    assert forall i | 0 <= i < |c.text| :: LeafHolds(n, m, TextKeys(c.text)[i]) <==> m.textMatch(c.text[i]);
  }

  lemma FlagKeysHold(n: nat, m: Message, c: Criteria)
    ensures AllHold(n, m, FlagKeys(c.flag)) <==> forall i | 0 <= i < |c.flag| :: FlagHolds(m, c.flag[i])
    ensures AllHold(n, m, UnflagKeys(c.notFlag)) <==> forall i | 0 <= i < |c.notFlag| :: !FlagHolds(m, c.notFlag[i])
  {
    assert forall i | 0 <= i < |c.flag| :: LeafHolds(n, m, FlagKeys(c.flag)[i]) <==> FlagHolds(m, c.flag[i]);
    assert forall i | 0 <= i < |c.notFlag| :: LeafHolds(n, m, UnflagKeys(c.notFlag)[i]) <==> !FlagHolds(m, c.notFlag[i]);
  }

  lemma SizeKeysHold(n: nat, m: Message, c: Criteria)
    requires c.larger >= 0 && c.smaller >= 0
    ensures AllHold(n, m, if c.larger > 0 then [LargerKey(c.larger)] else []) <==> (c.larger == 0 || m.size > c.larger)
    ensures AllHold(n, m, if c.smaller > 0 then [SmallerKey(c.smaller)] else []) <==> (c.smaller == 0 || m.size < c.smaller)
  {
    assert c.larger > 0 ==> [LargerKey(c.larger)][0] == LargerKey(c.larger);
    assert c.smaller > 0 ==> [SmallerKey(c.smaller)][0] == SmallerKey(c.smaller);
  }

  /** The keys hold together exactly when the flat part of the criteria does. */
  lemma LeavesHold(n: nat, m: Message, c: Criteria)
    requires c.larger >= 0 && c.smaller >= 0
    ensures AllHold(n, m, Leaves(c)) <==> FlatMatches(n, m, c)
  {
    var l1, l2, l5 := SeqKeys(c.seqNum), UidKeys(c.uid), HeaderKeys(c.header);
    var l3 := DayKeys(c.since, c.before, On, Since, Before);
    var l4 := DayKeys(c.sentSince, c.sentBefore, SentOn, SentSince, SentBefore);
    var l6, l7, l8, l9 := BodyKeys(c.body), TextKeys(c.text), FlagKeys(c.flag), UnflagKeys(c.notFlag);
    var l10 := if c.larger > 0 then [LargerKey(c.larger)] else [];
    var l11 := if c.smaller > 0 then [SmallerKey(c.smaller)] else [];
    NumberKeysHold(n, m, c);
    DayKeysHold(n, m, c.since, c.before);
    DayKeysHold(n, m, c.sentSince, c.sentBefore);
    ContentKeysHold(n, m, c);
    FlagKeysHold(n, m, c);
    SizeKeysHold(n, m, c);
    hide AllHold;
    AllHoldConcat(n, m, l1, l2);
    AllHoldConcat(n, m, l1 + l2, l3);
    AllHoldConcat(n, m, l1 + l2 + l3, l4);
    AllHoldConcat(n, m, l1 + l2 + l3 + l4, l5);
    AllHoldConcat(n, m, l1 + l2 + l3 + l4 + l5, l6);
    AllHoldConcat(n, m, l1 + l2 + l3 + l4 + l5 + l6, l7);
    AllHoldConcat(n, m, l1 + l2 + l3 + l4 + l5 + l6 + l7, l8);
    AllHoldConcat(n, m, l1 + l2 + l3 + l4 + l5 + l6 + l7 + l8, l9);
    AllHoldConcat(n, m, l1 + l2 + l3 + l4 + l5 + l6 + l7 + l8 + l9, l10);
    AllHoldConcat(n, m, FrontLeaves(c), l11);
  }

  // ---------------------------------------------------------------- the server's reading means the same

  lemma LowerTitle(s: string)
    ensures Lower(Title(Lower(Upper(s)))) == Lower(s)
  {
  }

  lemma ParsedFlagHolds(m: Message, f: string)
    ensures FlagHolds(m, ParsedFlag(f)) <==> FlagHolds(m, f)
  {
    if f in SYSTEM_FLAGS {
      var key := FlagSearchKey(f);
      LowerTitle(f[1..]);
      assert f[0] == '\\';
      assert Lower("\\" + Title(Lower(key))) == "\\" + Lower(Title(Lower(key)));
      assert Lower(f) == "\\" + Lower(f[1..]);
    }
  }

  lemma ParsedFieldHolds(m: Message, f: Field)
    ensures FieldHolds(m, ParsedField(f)) <==> FieldHolds(m, f)
  {
    LowerTitle(f.key);
  }

  ghost predicate Sizes(c: Criteria) { c.larger >= 0 && c.smaller >= 0 }

  /** What a key comes to once the server has it. Zero sizes and the zero day mean "not set", so a
      size key with 0 asks nothing, and neither does a limit at the zero day. */
  function Effective(leaf: Leaf): (r: seq<Leaf>) {
    match leaf
    case LargerKey(k) => if k == 0 then [] else [leaf]
    case SmallerKey(k) => if k == 0 then [] else [leaf]
    case DayKey(On, t) => if IsZero(t) || IsZero(NextDay(t)) then Limits(Since, Before, t) else [leaf]
    case DayKey(SentOn, t) => if IsZero(t) || IsZero(NextDay(t)) then Limits(SentSince, SentBefore, t) else [leaf]
    case DayKey(_, t) => if IsZero(t) then [] else [leaf]
    case _ => [leaf]
  }

  /** The two ends of one day, as far as they are set. */
  function Limits(since: DateKey, before: DateKey, t: Date): (r: seq<Leaf>) {
    (if IsZero(t) then [] else [DayKey(since, t)]) + (if IsZero(NextDay(t)) then [] else [DayKey(before, NextDay(t))])
  }

  /** A key that means to the server what it says. */
  ghost predicate LeafOk(leaf: Leaf) { Effective(leaf) == [leaf] }

  /** The criteria that a key is turned into before And takes them in. */
  predicate IsAndKey(leaf: Leaf) { leaf.DayKey? || leaf.LargerKey? || leaf.SmallerKey? }

  function AndCriteria(leaf: Leaf): (c: Criteria)
    requires IsAndKey(leaf)
  {
    match leaf
    case DayKey(k, t) => DayCriteria(k, t)
    case LargerKey(k) => EMPTY.(larger := k)
    case SmallerKey(k) => EMPTY.(smaller := k)
  }

  lemma AllHoldFew(n: nat, m: Message, r: seq<Leaf>)
    requires |r| <= 2
    ensures AllHold(n, m, r) <==> (|r| > 0 ==> LeafHolds(n, m, r[0])) && (|r| > 1 ==> LeafHolds(n, m, r[1]))
  {
  }

  lemma DayCriteriaMeans(n: nat, m: Message, key: DateKey, t: Date)
    ensures FlatMatches(n, m, DayCriteria(key, t)) <==> AllHold(n, m, Effective(DayKey(key, t)))
  {
    AllHoldFew(n, m, Effective(DayKey(key, t)));
    hide AllHold, NextDay, Earlier;
  }

  lemma AndCriteriaMeans(n: nat, m: Message, leaf: Leaf)
    requires IsAndKey(leaf)
    ensures FlatMatches(n, m, AndCriteria(leaf)) <==> AllHold(n, m, Effective(leaf))
  {
    if leaf.DayKey? {
      DayCriteriaMeans(n, m, leaf.key, leaf.date);
    } else {
      AllHoldFew(n, m, Effective(leaf));
      hide AllHold;
    }
  }

  lemma AllHoldOne<T>(xs: seq<T>, x: T, p: T -> bool)
    ensures (forall i | 0 <= i < |xs + [x]| :: p((xs + [x])[i])) <==> (forall i | 0 <= i < |xs| :: p(xs[i])) && p(x)
  {
    AndSeqs(xs, [x], p);
    assert (forall i | 0 <= i < |[x]| :: p([x][i])) <==> p(x) by {
      if forall i | 0 <= i < |[x]| :: p([x][i]) { assert p([x][0]); }
    }
  }

  lemma AddAndLeafMeans(n: nat, m: Message, acc: Criteria, leaf: Leaf)
    requires Sizes(acc) && IsAndKey(leaf) && !LosesLimit(acc, AndCriteria(leaf))
    ensures FlatMatches(n, m, AddLeaf(acc, leaf)) <==> FlatMatches(n, m, acc) && AllHold(n, m, Effective(leaf))
  {
    AndCriteriaMeans(n, m, leaf);
    hide FlatMatches, AllHold, Effective;
    AndFlat(n, m, acc, AndCriteria(leaf));
  }

  lemma AddNumberLeafMeans(n: nat, m: Message, acc: Criteria, leaf: Leaf)
    requires leaf.SeqKey? || leaf.UidKey? || leaf.BodyKey? || leaf.TextKey?
    ensures FlatMatches(n, m, AddLeaf(acc, leaf)) <==> FlatMatches(n, m, acc) && LeafHolds(n, m, leaf)
  {
    match leaf
    case SeqKey(s) => AllHoldOne(acc.seqNum, s, x => SeqHolds(n, x));
    case UidKey(u) => AllHoldOne(acc.uid, u, x => UidHolds(m, x));
    case BodyKey(s) => AllHoldOne(acc.body, s, m.bodyMatch);
    case TextKey(s) => AllHoldOne(acc.text, s, m.textMatch);
  }

  lemma AddFieldMeans(n: nat, m: Message, acc: Criteria, f: Field)
    ensures FlatMatches(n, m, AddLeaf(acc, HeaderKey(f))) <==> FlatMatches(n, m, acc) && FieldHolds(m, f)
  {
    AllHoldOne(acc.header, ParsedField(f), x => FieldHolds(m, x));
    ParsedFieldHolds(m, f);
    hide FieldHolds, ParsedField, SizeHolds, SentHolds, MatchDate, FlagHolds;
  }

  lemma AddFlagMeans(n: nat, m: Message, acc: Criteria, f: string)
    ensures FlatMatches(n, m, AddLeaf(acc, FlagKey(f))) <==> FlatMatches(n, m, acc) && FlagHolds(m, f)
  {
    AllHoldOne(acc.flag, ParsedFlag(f), x => FlagHolds(m, x));
    ParsedFlagHolds(m, f);
    hide FieldHolds, ParsedFlag, SizeHolds, SentHolds, MatchDate, FlagHolds;
  }

  lemma AddUnflagMeans(n: nat, m: Message, acc: Criteria, f: string)
    ensures FlatMatches(n, m, AddLeaf(acc, UnflagKey(f))) <==> FlatMatches(n, m, acc) && !FlagHolds(m, f)
  {
    AllHoldOne(acc.notFlag, ParsedFlag(f), x => !FlagHolds(m, x));
    ParsedFlagHolds(m, f);
    hide FieldHolds, ParsedFlag, SizeHolds, SentHolds, MatchDate, FlagHolds;
  }

  lemma AddFlagLeafMeans(n: nat, m: Message, acc: Criteria, leaf: Leaf)
    requires leaf.HeaderKey? || leaf.FlagKey? || leaf.UnflagKey?
    ensures FlatMatches(n, m, AddLeaf(acc, leaf)) <==> FlatMatches(n, m, acc) && LeafHolds(n, m, leaf)
  {
    hide FlatMatches, AddLeaf;
    match leaf
    case HeaderKey(f) => AddFieldMeans(n, m, acc, f);
    case FlagKey(f) => AddFlagMeans(n, m, acc, f);
    case UnflagKey(f) => AddUnflagMeans(n, m, acc, f);
  }

  /** And takes in criteria without a Smaller limit, so a limit that is already there is lost. */
  predicate Resets(leaf: Leaf) { leaf.DayKey? || leaf.LargerKey? || leaf == SmallerKey(0) }

  lemma AddLeafMeans(n: nat, m: Message, acc: Criteria, leaf: Leaf)
    requires Sizes(acc) && (Resets(leaf) ==> acc.smaller == 0)
    ensures FlatMatches(n, m, AddLeaf(acc, leaf)) <==> FlatMatches(n, m, acc) && AllHold(n, m, Effective(leaf))
  {
    if !IsAndKey(leaf) { AllHoldFew(n, m, Effective(leaf)); }
    hide FlatMatches, AddLeaf, LeafHolds, AllHold;
    if IsAndKey(leaf) {
      AddAndLeafMeans(n, m, acc, leaf);
    } else if leaf.HeaderKey? || leaf.FlagKey? || leaf.UnflagKey? {
      AddFlagLeafMeans(n, m, acc, leaf);
    } else {
      AddNumberLeafMeans(n, m, acc, leaf);
    }
  }

  // ---------------------------------------------------------------- key sequences in any order

  function WithoutSmaller(leaves: seq<Leaf>): (r: seq<Leaf>) {
    if leaves == [] then []
    else WithoutSmaller(leaves[..|leaves| - 1]) + if leaves[|leaves| - 1].SmallerKey? then [] else [leaves[|leaves| - 1]]
  }

  /** The keys of a sequence that count: a SMALLER counts only if no date key, no LARGER and no SMALLER 0
      follows it, and zero arguments ask nothing. */
  function Surviving(leaves: seq<Leaf>): (r: seq<Leaf>) {
    if leaves == [] then []
    else
      var front, last := Surviving(leaves[..|leaves| - 1]), leaves[|leaves| - 1];
      (if Resets(last) then WithoutSmaller(front) else front) + Effective(last)
  }

  lemma {:induction false} WithoutSmallerConcat(a: seq<Leaf>, b: seq<Leaf>)
    ensures WithoutSmaller(a + b) == WithoutSmaller(a) + WithoutSmaller(b)
    decreases |b|
  {
    if b == [] {
      assert a + b == a;
    } else {
      var front := b[..|b| - 1];
      WithoutSmallerConcat(a, front);
      assert (a + b)[..|a + b| - 1] == a + front;
    }
  }

  lemma {:induction false} WithoutSmallerTwice(a: seq<Leaf>)
    ensures WithoutSmaller(WithoutSmaller(a)) == WithoutSmaller(a)
    decreases |a|
  {
    if a != [] {
      var front, last := a[..|a| - 1], a[|a| - 1];
      WithoutSmallerTwice(front);
      if !last.SmallerKey? {
        WithoutSmallerConcat(WithoutSmaller(front), [last]);
        assert WithoutSmaller([last]) == [last];
      } else {
        assert WithoutSmaller(a) == WithoutSmaller(front);
      }
    }
  }

  function NoLimit(c: Criteria): (r: Criteria) { c.(smaller := 0) }

  /** A key that resets forgets the limit, whatever it was. */
  lemma ResetsForget(acc: Criteria, leaf: Leaf)
    requires Sizes(acc) && Resets(leaf)
    ensures AddLeaf(acc, leaf) == AddLeaf(NoLimit(acc), leaf) && NoLimit(AddLeaf(acc, leaf)) == AddLeaf(acc, leaf)
  {
  }

  /** Without limits, a SMALLER adds nothing and the other keys add what they always do. */
  lemma NoLimitAdds(acc: Criteria, leaf: Leaf)
    requires Sizes(acc)
    ensures NoLimit(AddLeaf(acc, leaf)) == if leaf.SmallerKey? then NoLimit(acc) else AddLeaf(NoLimit(acc), leaf)
  {
  }

  lemma EffectiveSmaller(leaf: Leaf)
    ensures |Effective(leaf)| <= 1
    ensures WithoutSmaller(Effective(leaf)) == if leaf.SmallerKey? then [] else Effective(leaf)
  {
    assert NextDay(ZERO) != ZERO;
    hide NextDay;
    var r := Effective(leaf);
    assert r != [] ==> r[..|r| - 1] == [];
  }

  lemma SizesKept(acc: Criteria, leaf: Leaf)
    requires Sizes(acc) && acc.not == [] && acc.or == []
    ensures var r := AddLeaf(acc, leaf); Sizes(r) && r.not == [] && r.or == []
  {
  }

  /** One more key, behind criteria that stand for the keys s. */
  lemma OneMoreKey(n: nat, m: Message, acc: Criteria, s: seq<Leaf>, last: Leaf)
    requires Sizes(acc) && (FlatMatches(n, m, acc) <==> AllHold(n, m, s))
    requires FlatMatches(n, m, NoLimit(acc)) <==> AllHold(n, m, WithoutSmaller(s))
    ensures var r, t := AddLeaf(acc, last), (if Resets(last) then WithoutSmaller(s) else s) + Effective(last);
            && (FlatMatches(n, m, r) <==> AllHold(n, m, t))
            && (FlatMatches(n, m, NoLimit(r)) <==> AllHold(n, m, WithoutSmaller(t)))
  {
    hide FlatMatches, AddLeaf, AllHold, Effective, WithoutSmaller;
    var e := Effective(last);
    EffectiveSmaller(last);
    AddLeafMeans(n, m, NoLimit(acc), last);
    if Resets(last) { ResetsForget(acc, last); } else { AddLeafMeans(n, m, acc, last); }
    NoLimitAdds(acc, last);
    WithoutSmallerConcat(s, e);
    WithoutSmallerConcat(WithoutSmaller(s), e);
    WithoutSmallerTwice(s);
    AllHoldConcat(n, m, s, e);
    AllHoldConcat(n, m, WithoutSmaller(s), e);
    assert last.SmallerKey? ==> WithoutSmaller(s) + [] == WithoutSmaller(s);
  }

  /** For every key sequence in any order: the criteria that the server builds match a message exactly
      when all the surviving keys hold. */
  lemma {:induction false} KeySequenceMeans(n: nat, m: Message, leaves: seq<Leaf>)
    ensures var r := AddLeaves(leaves);
            && Sizes(r) && r.not == [] && r.or == []
            && (FlatMatches(n, m, r) <==> AllHold(n, m, Surviving(leaves)))
            && (FlatMatches(n, m, NoLimit(r)) <==> AllHold(n, m, WithoutSmaller(Surviving(leaves))))
    decreases |leaves|
  {
    if leaves != [] {
      var front, last := leaves[..|leaves| - 1], leaves[|leaves| - 1];
      hide FlatMatches, AddLeaf, AllHold, Effective, WithoutSmaller;
      KeySequenceMeans(n, m, front);
      SizesKept(AddLeaves(front), last);
      OneMoreKey(n, m, AddLeaves(front), Surviving(front), last);
    }
  }

  // which sequences lose nothing

  /** Every key counts: no argument is zero, and nothing that resets follows a SMALLER. */
  ghost predicate EveryKeyCounts(leaves: seq<Leaf>) {
    && (forall i | 0 <= i < |leaves| :: LeafOk(leaves[i]))
    && (forall i, j | 0 <= i < j < |leaves| && leaves[i].SmallerKey? :: !Resets(leaves[j]))
  }

  ghost predicate NoSmaller(leaves: seq<Leaf>) { forall i | 0 <= i < |leaves| :: !leaves[i].SmallerKey? }

  lemma {:induction false} WithoutSmallerAll(a: seq<Leaf>)
    ensures |WithoutSmaller(a)| <= |a|
    ensures |WithoutSmaller(a)| == |a| <==> NoSmaller(a)
    ensures NoSmaller(a) ==> WithoutSmaller(a) == a
    decreases |a|
  {
    if a != [] {
      var front, last := a[..|a| - 1], a[|a| - 1];
      WithoutSmallerAll(front);
      assert a == front + [last];
      assert NoSmaller(a) <==> NoSmaller(front) && !last.SmallerKey?;
    }
  }

  lemma EveryKeyStep(front: seq<Leaf>, last: Leaf)
    ensures EveryKeyCounts(front + [last]) <==>
            EveryKeyCounts(front) && LeafOk(last) && (Resets(last) ==> NoSmaller(front))
  {
    hide LeafOk;
    var a := front + [last];
    assert forall i | 0 <= i < |front| :: a[i] == front[i];
    assert a[|front|] == last;
  }

  /** All keys survive exactly when every key counts: then, and only then, is the sequence its own meaning. */
  lemma {:induction false} SurvivingAll(leaves: seq<Leaf>)
    ensures |Surviving(leaves)| <= |leaves|
    ensures Surviving(leaves) == leaves <==> EveryKeyCounts(leaves)
    decreases |leaves|
  {
    if leaves != [] {
      var front, last := leaves[..|leaves| - 1], leaves[|leaves| - 1];
      assert leaves == front + [last];
      SurvivingAll(front);
      EveryKeyStep(front, last);
      var s, e := Surviving(front), Effective(last);
      EffectiveSmaller(last);
      WithoutSmallerAll(s);
      hide EveryKeyCounts, Effective, WithoutSmaller, Resets;
      var x := if Resets(last) then WithoutSmaller(s) else s;
      assert Surviving(leaves) == x + e;
      if x + e == leaves {
        assert |x| == |front| && |e| == 1;
        assert x == (x + e)[..|x|] == front && e == [(x + e)[|x|]];
      }
    }
  }

  lemma LeavesCount(c: Criteria)
    requires Sizes(c)
    ensures EveryKeyCounts(Leaves(c))
  {
    hide NextDay;
    var l := Leaves(c);
    assert forall i | 0 <= i < |l| - 1 :: l[i] == FrontLeaves(c)[i];
    FrontLeavesOk(c);
  }

  ghost predicate AllPlain(leaves: seq<Leaf>) { forall i | 0 <= i < |leaves| :: !leaves[i].SmallerKey? && LeafOk(leaves[i]) }

  lemma PlainConcat(a: seq<Leaf>, b: seq<Leaf>)
    requires AllPlain(a) && AllPlain(b)
    ensures AllPlain(a + b)
  {
    hide LeafOk;
  }

  lemma DayKeysPlain(since: Date, before: Date, on: DateKey, sinceKey: DateKey, beforeKey: DateKey)
    requires sinceKey != On && sinceKey != SentOn && beforeKey != On && beforeKey != SentOn
    ensures AllPlain(DayKeys(since, before, on, sinceKey, beforeKey))
  {
    hide NextDay;
  }

  lemma OtherKeysPlain(c: Criteria)
    ensures AllPlain(SeqKeys(c.seqNum)) && AllPlain(UidKeys(c.uid))
    ensures AllPlain(HeaderKeys(c.header)) && AllPlain(BodyKeys(c.body)) && AllPlain(TextKeys(c.text))
    ensures AllPlain(FlagKeys(c.flag)) && AllPlain(UnflagKeys(c.notFlag))
    ensures AllPlain(if c.larger > 0 then [LargerKey(c.larger)] else [])
  {
  }

  lemma FrontLeavesOk(c: Criteria)
    ensures NoSmaller(FrontLeaves(c)) && forall i | 0 <= i < |FrontLeaves(c)| :: LeafOk(FrontLeaves(c)[i])
  {
    assert AllPlain(FrontLeaves(c)) by {
      hide AllPlain, DayKeys, SeqKeys, UidKeys, HeaderKeys, BodyKeys, TextKeys, FlagKeys, UnflagKeys;
      OtherKeysPlain(c);
      DayKeysPlain(c.since, c.before, On, Since, Before);
      DayKeysPlain(c.sentSince, c.sentBefore, SentOn, SentSince, SentBefore);
      var a := SeqKeys(c.seqNum) + UidKeys(c.uid);
      PlainConcat(SeqKeys(c.seqNum), UidKeys(c.uid));
      var b := a + DayKeys(c.since, c.before, On, Since, Before);
      PlainConcat(a, DayKeys(c.since, c.before, On, Since, Before));
      var d := b + DayKeys(c.sentSince, c.sentBefore, SentOn, SentSince, SentBefore);
      PlainConcat(b, DayKeys(c.sentSince, c.sentBefore, SentOn, SentSince, SentBefore));
      PlainConcat(d, HeaderKeys(c.header));
      PlainConcat(d + HeaderKeys(c.header), BodyKeys(c.body));
      var e := d + HeaderKeys(c.header) + BodyKeys(c.body) + TextKeys(c.text);
      PlainConcat(d + HeaderKeys(c.header) + BodyKeys(c.body), TextKeys(c.text));
      PlainConcat(e, FlagKeys(c.flag));
      PlainConcat(e + FlagKeys(c.flag), UnflagKeys(c.notFlag));
      PlainConcat(e + FlagKeys(c.flag) + UnflagKeys(c.notFlag), if c.larger > 0 then [LargerKey(c.larger)] else []);
    }
    hide FrontLeaves, LeafOk;
  }

  lemma AddLeavesMeans(n: nat, m: Message, c: Criteria)
    requires Sizes(c)
    ensures var r := AddLeaves(Leaves(c));
            && Sizes(r) && r.not == [] && r.or == []
            && (FlatMatches(n, m, r) <==> FlatMatches(n, m, c))
  {
    hide FlatMatches, AddLeaves, AllHold, Leaves, EveryKeyCounts;
    LeavesCount(c);
    SurvivingAll(Leaves(c));
    KeySequenceMeans(n, m, Leaves(c));
    LeavesHold(n, m, c);
  }

  // ---------------------------------------------------------------- trees

  ghost predicate SizesOk(c: Criteria) {
    && Sizes(c)
    && (forall i | 0 <= i < |c.not| :: SizesOk(c.not[i]))
    && (forall i | 0 <= i < |c.or| :: SizesOk(c.or[i].left) && SizesOk(c.or[i].right))
  }

  lemma {:induction false} NormalNotsAt(c: Criteria, k: nat, i: nat)
    requires i < k <= |c.not|
    ensures NormalNots(c, k)[i] == Normal(c.not[i])
    decreases k
  {
    if i < k - 1 { NormalNotsAt(c, k - 1, i); }
  }

  lemma {:induction false} NormalOrsAt(c: Criteria, k: nat, i: nat)
    requires i < k <= |c.or|
    ensures NormalOrs(c, k)[i] == Pair(Normal(c.or[i].left), Normal(c.or[i].right))
    decreases k
  {
    if i < k - 1 { NormalOrsAt(c, k - 1, i); }
  }

  lemma FlatSame(n: nat, m: Message, a: Criteria, b: Criteria)
    requires a == b.(not := a.not, or := a.or)
    ensures FlatMatches(n, m, a) <==> FlatMatches(n, m, b)
  {
    hide SeqHolds, UidHolds, FlagHolds, FieldHolds, MatchDate;
  }

  /** The criteria that the server builds are equivalent to those the client printed, on every
      message and sequence number. */
  lemma {:induction false} NormalMeans(n: nat, m: Message, c: Criteria)
    requires SizesOk(c)
    ensures Matches(n, m, Normal(c)) <==> Matches(n, m, c)
    decreases c
  {
    hide FlatMatches, AddLeaves, Leaves;
    var r := Normal(c);
    AddLeavesMeans(n, m, c);
    forall i | 0 <= i < |c.not| ensures Matches(n, m, r.not[i]) <==> Matches(n, m, c.not[i]) {
      NormalNotsAt(c, |c.not|, i);
      NormalMeans(n, m, c.not[i]);
    }
    forall i | 0 <= i < |c.or|
      ensures Matches(n, m, r.or[i].left) <==> Matches(n, m, c.or[i].left)
      ensures Matches(n, m, r.or[i].right) <==> Matches(n, m, c.or[i].right)
    {
      NormalOrsAt(c, |c.or|, i);
      NormalMeans(n, m, c.or[i].left);
      NormalMeans(n, m, c.or[i].right);
    }
    FlatSame(n, m, r, AddLeaves(Leaves(c)));
  }
}
