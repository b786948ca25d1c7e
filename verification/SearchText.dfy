/** SEARCH on the wire.
    The text of the keys, as imapclient/search.go
    prints them, and the parser of imapserver/search.go. */
module SearchText {
  import opened Text
  import opened NumSet
  import opened NumSetText
  import opened Wire
  import opened Criteria
  import opened SearchKeys

  // ---------------------------------------------------------------- dates

  const MONTHS: seq<string> :=
    ["Jan", "Feb", "Mar", "Apr", "May", "Jun", "Jul", "Aug", "Sep", "Oct", "Nov", "Dec"]

  function Digit(n: nat): (c: char)
    requires n < 10
  {
    n as char + '0'
  }

  /** A year in four digits. */
  function Pad4(n: nat): (s: string)
    requires n <= 9999
  {
    [Digit(n / 1000), Digit(n / 100 % 10), Digit(n / 10 % 10), Digit(n % 10)]
  }

  /** The layout "2-Jan-2006". */
  function DateText(t: Date): (s: string) {
    if PrintableDate(t) then Digits(t.day) + "-" + MONTHS[t.month - 1] + "-" + Pad4(t.year) else ""
  }

  /** A day that the layout can express. */
  predicate PrintableDate(t: Date) { ValidDate(t) && t.year <= 9999 }

  function FindMonth(name: string, k: nat): (r: Option<nat>)
    requires k <= 12
    ensures r.Some? ==> 1 <= r.value <= 12
    decreases 12 - k
  {
    if k == 12 then None else if EqualFold(name, MONTHS[k]) then Some(k + 1) else FindMonth(name, k + 1)
  }

  /** time.Parse with that layout: one or two digits, a month name in any case, four digits. */
  function ParseDate(s: string): (r: Option<Date>)
    ensures r.Some? ==> ValidDate(r.value)
  {
    var i := IndexOf(s, '-');
    if !(1 <= i <= 2 && |s| == i + 9 && s[i + 4] == '-') then None
    else
      match (ParseUint(s[..i], 99), FindMonth(s[i + 1..i + 4], 0), ParseUint(s[i + 5..], 9999))
      case (Some(d), Some(m), Some(y)) => if ValidDate(Date(y, m, d)) then Some(Date(y, m, d)) else None
      case _ => None
  }

  lemma MonthFound(m: nat)
    requires 1 <= m <= 12
    ensures FindMonth(MONTHS[m - 1], 0) == Some(m) && |MONTHS[m - 1]| == 3
  {
    MonthFoundFrom(m, 0);
  }

  lemma {:induction false} MonthFoundFrom(m: nat, k: nat)
    requires 1 <= m <= 12 && k < m
    ensures FindMonth(MONTHS[m - 1], k) == Some(m) && |MONTHS[m - 1]| == 3
    decreases m - k
  {
    if k < m - 1 {
      MonthsDiffer(m - 1, k);
      MonthFoundFrom(m, k + 1);
    }
  }

  lemma MonthsDiffer(i: nat, j: nat)
    requires j < i < 12
    ensures !EqualFold(MONTHS[i], MONTHS[j])
  {
    var a, b := Lower(MONTHS[i]), Lower(MONTHS[j]);
    assert a[0] != b[0] || a[1] != b[1] || a[2] != b[2];
  }

  lemma ValueSnoc(s: string, d: nat)
    requires AllDigits(s) && d < 10
    ensures AllDigits(s + [Digit(d)]) && Value(s + [Digit(d)]) == Value(s) * 10 + d
  {
    var t := s + [Digit(d)];
    assert t[..|t| - 1] == s;
  }

  lemma ValueOfFour(a: nat, b: nat, c: nat, d: nat)
    requires a < 10 && b < 10 && c < 10 && d < 10
    ensures var s := [Digit(a), Digit(b), Digit(c), Digit(d)]; AllDigits(s) && Value(s) == ((a * 10 + b) * 10 + c) * 10 + d
  {
    assert AllDigits("") && Value("") == 0;
    hide Value, AllDigits, Digit;
    ValueSnoc([], a);
    ValueSnoc([Digit(a)], b);
    ValueSnoc([Digit(a), Digit(b)], c);
    ValueSnoc([Digit(a), Digit(b), Digit(c)], d);
    assert [] + [Digit(a)] == [Digit(a)];
    assert [Digit(a)] + [Digit(b)] == [Digit(a), Digit(b)];
    assert [Digit(a), Digit(b)] + [Digit(c)] == [Digit(a), Digit(b), Digit(c)];
    assert [Digit(a), Digit(b), Digit(c)] + [Digit(d)] == [Digit(a), Digit(b), Digit(c), Digit(d)];
  }

  lemma FourDigits(n: nat)
    requires n <= 9999
    ensures n / 1000 < 10 && n == ((n / 1000 * 10 + n / 100 % 10) * 10 + n / 10 % 10) * 10 + n % 10
  {
    assert n / 100 == n / 10 / 10;
    assert n / 1000 == n / 100 / 10;
  }

  lemma Pad4Value(n: nat)
    requires n <= 9999
    ensures |Pad4(n)| == 4 && ParseUint(Pad4(n), 9999) == Some(n)
  {
    FourDigits(n);
    hide Value, AllDigits, Digit;
    ValueOfFour(n / 1000, n / 100 % 10, n / 10 % 10, n % 10);
  }

  lemma DateRoundTrip(t: Date)
    requires PrintableDate(t)
    ensures ParseDate(DateText(t)) == Some(t)
    ensures |DateText(t)| <= 11
  {
    MonthFound(t.month);
    Pad4Value(t.year);
    ParseDigits(t.day, 99);
    var s, i := DateText(t), |Digits(t.day)|;
    assert s[..i] == Digits(t.day);
    IndexUnique(s, '-', i);
    assert s[i + 1..i + 4] == MONTHS[t.month - 1] && s[i + 5..] == Pad4(t.year);
  }

  // ---------------------------------------------------------------- printing

  function UidText(u: UidSet): (s: string) {
    if u.SavedResult? then "$" else SetText(u.s)
  }

  function DayKeyword(k: DateKey): (s: string) {
    match k
    case On => "ON"
    case Since => "SINCE"
    case Before => "BEFORE"
    case SentOn => "SENTON"
    case SentSince => "SENTSINCE"
    case SentBefore => "SENTBEFORE"
  }

  function LeafText(e: Enc, leaf: Leaf): (s: string) {
    match leaf
    case SeqKey(x) => SetText(x)
    case UidKey(u) => "UID" + (" " + UidText(u))
    case DayKey(k, t) => DayKeyword(k) + (" " + StringText(e, DateText(t)))
    case HeaderKey(f) =>
      if Upper(f.key) in FIELD_KEYS then Upper(f.key) + (" " + StringText(e, f.value))
      else "HEADER" + (" " + (StringText(e, f.key) + (" " + StringText(e, f.value))))
    case BodyKey(x) => "BODY" + (" " + StringText(e, x))
    case TextKey(x) => "TEXT" + (" " + StringText(e, x))
    case FlagKey(f) => if FlagSearchKey(f) != "" then FlagSearchKey(f) else "KEYWORD" + (" " + f)
    case UnflagKey(f) => if FlagSearchKey(f) != "" then "UN" + FlagSearchKey(f) else "UNKEYWORD" + (" " + f)
    case LargerKey(n) => "LARGER" + (" " + Digits(n))
    case SmallerKey(n) => "SMALLER" + (" " + Digits(n))
  }

  function LeafTexts(e: Enc, leaves: seq<Leaf>): (r: seq<string>)
    ensures |r| == |leaves|
    ensures forall i | 0 <= i < |r| :: r[i] == LeafText(e, leaves[i])
  {
    seq(|leaves|, i requires 0 <= i < |leaves| => LeafText(e, leaves[i]))
  }

  /** writeSearchKey. */
  function KeyText(e: Enc, c: Criteria): (s: string)
    decreases c, 1, 0
  {
    var parts := LeafTexts(e, Leaves(c)) + NotTexts(e, c, |c.not|) + OrTexts(e, c, |c.or|);
    if parts == [] then "ALL" else Join(parts, ' ')
  }

  function NotTexts(e: Enc, c: Criteria, k: nat): (r: seq<string>)
    requires k <= |c.not|
    ensures |r| == k
    decreases c, 0, k
  {
    if k == 0 then [] else NotTexts(e, c, k - 1) + ["NOT" + (" " + ("(" + (KeyText(e, c.not[k - 1]) + ")")))]
  }

  function OrTexts(e: Enc, c: Criteria, k: nat): (r: seq<string>)
    requires k <= |c.or|
    ensures |r| == k
    decreases c, 0, k
  {
    if k == 0 then []
    else OrTexts(e, c, k - 1)
         + ["OR" + (" " + (("(" + (KeyText(e, c.or[k - 1].left) + ")"))
                    + (" " + ("(" + (KeyText(e, c.or[k - 1].right) + ")")))))]
  }

  // ---------------------------------------------------------------- parsing

  datatype Keyword =
    | KAll | KUid | KFlag | KUnflag | KNew | KOld | KKeyword | KUnkeyword | KField | KHeader
    | KDay(key: DateKey) | KBody | KText | KLarger | KSmaller | KNot | KOr | KSaved | KNumbers

  function KeywordOf(key: string): (k: Keyword) {
    if key == "ALL" then KAll
    else if key == "UID" then KUid
    else if key in ["ANSWERED", "DELETED", "DRAFT", "FLAGGED", "RECENT", "SEEN"] then KFlag
    else if key in ["UNANSWERED", "UNDELETED", "UNDRAFT", "UNFLAGGED", "UNSEEN"] then KUnflag
    else if key == "NEW" then KNew
    else if key == "OLD" then KOld
    else if key == "KEYWORD" then KKeyword
    else if key == "UNKEYWORD" then KUnkeyword
    else if key in FIELD_KEYS then KField
    else if key == "HEADER" then KHeader
    else if key == "SINCE" then KDay(Since)
    else if key == "BEFORE" then KDay(Before)
    else if key == "ON" then KDay(On)
    else if key == "SENTSINCE" then KDay(SentSince)
    else if key == "SENTBEFORE" then KDay(SentBefore)
    else if key == "SENTON" then KDay(SentOn)
    else if key == "BODY" then KBody
    else if key == "TEXT" then KText
    else if key == "LARGER" then KLarger
    else if key == "SMALLER" then KSmaller
    else if key == "NOT" then KNot
    else if key == "OR" then KOr
    else if key == "$" then KSaved
    else KNumbers
  }

  /** Decoder.ExpectUIDSet. */
  function ReadUidSet(c: Conf, d: Dec): (r: Res<UidSet>)
    ensures |r.d.rest| <= |d.rest| && r.d.depth == d.depth
  {
    var a := Accept(c, d, '$');
    if a.Yes? then Yes(SavedResult, a.d)
    else
      var s := Func(c, d, KeyChars);
      if s.No? then No(s.d)
      else
        var set_ := ParseSet(s.value);
        if set_.None? then No(s.d) else Yes(Uids(set_.value), s.d)
  }

  /** ExpectFlag of internal/internal.go. */
  function ReadFlag(c: Conf, d: Dec): (r: Res<string>)
    ensures |r.d.rest| <= |d.rest| && r.d.depth == d.depth
  {
    var a := Accept(c, d, '\\');
    if a.Yes? && Accept(c, a.d, '*').Yes? then Yes("\\*", Accept(c, a.d, '*').d)
    else
      var name := Func(c, a.d, AtomChars);
      if name.No? then No(name.d)
      else Yes(CanonicalFlag(if a.Yes? then "\\" + name.value else name.value), name.d)
  }

  /** ExpectDate of internal/internal.go. */
  function ReadDate(c: Conf, d: Dec): (r: Res<Date>)
    ensures |r.d.rest| <= |d.rest| && r.d.depth == d.depth
  {
    var s := AString(c, d);
    if s.No? then No(s.d)
    else
      var t := ParseDate(s.value);
      if t.None? then No(s.d) else Yes(t.value, s.d)
  }

  /** The keys that take a string. */
  function ReadText(c: Conf, d: Dec, acc: Criteria, k: Keyword, key: string): (r: Res<Criteria>)
    ensures |r.d.rest| <= |d.rest| && r.d.depth == d.depth
  {
    var s := AString(c, d);
    if s.No? then No(s.d)
    else if k.KField? then Yes(acc.(header := acc.header + [Field(Title(Lower(key)), s.value)]), s.d)
    else if k.KBody? then Yes(acc.(body := acc.body + [s.value]), s.d)
    else if k.KText? then Yes(acc.(text := acc.text + [s.value]), s.d)
    else
      var sp := SP(c, s.d);
      if sp.No? then No(sp.d)
      else
        var v := AString(c, sp.d);
        if v.No? then No(v.d) else Yes(acc.(header := acc.header + [Field(s.value, v.value)]), v.d)
  }

  /** The keys that take an argument which is not a key. */
  function ReadArgument(c: Conf, d: Dec, acc: Criteria, k: Keyword, key: string): (r: Res<Criteria>)
    ensures |r.d.rest| <= |d.rest| && r.d.depth == d.depth
  {
    match k
    case KUid =>
      var u := ReadUidSet(c, d);
      if u.No? then No(u.d) else Yes(acc.(uid := acc.uid + [u.value]), u.d)
    case KKeyword =>
      var f := ReadFlag(c, d);
      if f.No? then No(f.d) else Yes(acc.(flag := acc.flag + [f.value]), f.d)
    case KUnkeyword =>
      var f := ReadFlag(c, d);
      if f.No? then No(f.d) else Yes(acc.(notFlag := acc.notFlag + [f.value]), f.d)
    case KDay(day) =>
      var t := ReadDate(c, d);
      if t.No? then No(t.d) else Yes(And(acc, DayCriteria(day, t.value)), t.d)
    case KLarger =>
      var n := Number(c, d, MAX_INT64);
      if n.No? then No(n.d) else Yes(And(acc, EMPTY.(larger := n.value)), n.d)
    case KSmaller =>
      var n := Number(c, d, MAX_INT64);
      if n.No? then No(n.d) else Yes(And(acc, EMPTY.(smaller := n.value)), n.d)
    case _ => ReadText(c, d, acc, k, key)
  }

  predicate TakesNothing(k: Keyword) {
    k.KAll? || k.KFlag? || k.KUnflag? || k.KNew? || k.KOld? || k.KSaved? || k.KNumbers?
  }

  /** The keys without an argument; anything unknown must be a number set. */
  function ReadBare(acc: Criteria, k: Keyword, key: string): (r: Option<Criteria>) {
    match k
    case KFlag => Some(acc.(flag := acc.flag + [SearchKeyFlag(key)]))
    case KUnflag => Some(acc.(notFlag := acc.notFlag + [SearchKeyFlag(if |key| >= 2 then key[2..] else key)]))
    case KNew => Some(acc.(flag := acc.flag + ["\\Recent"], notFlag := acc.notFlag + ["\\Seen"]))
    case KOld => Some(acc.(notFlag := acc.notFlag + ["\\Recent"]))
    case KSaved => Some(acc.(uid := acc.uid + [SavedResult]))
    case KNumbers =>
      (match ParseSet(key)
       case None => None
       case Some(x) => Some(acc.(seqNum := acc.seqNum + [x])))
    case _ => Some(acc)
  }

  /** readSearchKeyWithAtom. */
  function ReadKeyWithAtom(c: Conf, d: Dec, acc: Criteria, atom: string): (r: Res<Criteria>)
    ensures |r.d.rest| <= |d.rest| && (r.Yes? ==> r.d.depth == d.depth)
    decreases |d.rest|, 2
  {
    var key := Upper(atom);
    var k := KeywordOf(key);
    if TakesNothing(k) then
      match ReadBare(acc, k, key)
      case None => No(d)
      case Some(x) => Yes(x, d)
    else
      var sp := SP(c, d);
      if sp.No? then No(sp.d)
      else if k.KNot? then
        var r := ReadKey(c, sp.d, EMPTY);
        if r.No? then No(r.d) else Yes(acc.(not := acc.not + [r.value]), r.d)
      else if k.KOr? then
        var left := ReadKey(c, sp.d, EMPTY);
        if left.No? then No(left.d)
        else
          var sp2 := SP(c, left.d);
          if sp2.No? then No(sp2.d)
          else
            var right := ReadKey(c, sp2.d, EMPTY);
            if right.No? then No(right.d)
            else Yes(acc.(or := acc.or + [Pair(left.value, right.value)]), right.d)
      else ReadArgument(c, sp.d, acc, k, key)
  }

  /** readSearchKey: a key, or a parenthesized list of keys that all go into the same criteria. */
  function ReadKey(c: Conf, d: Dec, acc: Criteria): (r: Res<Criteria>)
    ensures |r.d.rest| <= |d.rest| && (r.Yes? ==> r.d.depth == d.depth && |r.d.rest| < |d.rest|)
    decreases |d.rest|, 1
  {
    var a := Func(c, d, KeyChars);
    if a.Yes? then ReadKeyWithAtom(c, a.d, acc, a.value)
    else
      var open := Accept(c, a.d, '(');
      if open.No? then No(open.d)
      else if Accept(c, open.d, ')').Yes? then Yes(acc, Accept(c, open.d, ')').d)
      else if d.depth + 1 >= MAX_LIST_DEPTH then No(open.d)
      else
        var r := ReadList(c, open.d.(depth := d.depth + 1), acc);
        if r.No? then No(r.d) else Yes(r.value, r.d.(depth := d.depth))
  }

  /** The keys of a list up to its closing parenthesis. */
  function ReadList(c: Conf, d: Dec, acc: Criteria): (r: Res<Criteria>)
    ensures |r.d.rest| <= |d.rest| && (r.Yes? ==> r.d.depth == d.depth)
    decreases |d.rest|, 3
  {
    var r := ReadKey(c, d, acc);
    if r.No? then No(r.d)
    else
      var close := Accept(c, r.d, ')');
      if close.Yes? then Yes(r.value, close.d)
      else
        var sp := SP(c, r.d);
        if sp.No? then No(sp.d) else ReadList(c, sp.d, r.value)
  }

  /** The key loop of handleSearch. */
  function ReadKeys(c: Conf, d: Dec, acc: Criteria): (r: Res<Criteria>)
    decreases |d.rest|
  {
    var r := ReadKey(c, d, acc);
    if r.No? then No(r.d)
    else
      var sp := SP(c, r.d);
      if sp.No? then Yes(r.value, sp.d) else ReadKeys(c, sp.d, r.value)
  }
}
