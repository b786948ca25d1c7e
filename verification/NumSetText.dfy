/** The text form of number sets: parseNum, parseNumRange, ParseSet and Set.String. */
module NumSetText {
  import opened Text
  import opened NumSet

  // ---------------------------------------------------------------- printing

  function NumText(n: uint32): (s: string) {
    if n == 0 then "*" else Digits(n)
  }

  function RangeText(r: Range): (s: string) {
    if r.start == r.stop then NumText(r.start) else NumText(r.start) + [':'] + NumText(r.stop)
  }

  function RangeTexts(s: seq<Range>): (parts: seq<string>)
    ensures |parts| == |s|
    ensures forall i | 0 <= i < |s| :: parts[i] == RangeText(s[i])
  {
    if s == [] then [] else RangeTexts(s[..|s| - 1]) + [RangeText(s[|s| - 1])]
  }

  function SetText(s: seq<Range>): (t: string) {
    if s == [] then "" else Join(RangeTexts(s), ',')
  }

  // ---------------------------------------------------------------- parsing

  function ParseNum(v: string): (r: Option<uint32>) {
    var n := ParseUint(v, MAX_UINT32);
    if n.Some? && v[0] != '0' then Some(n.value)
    else if v == "*" then Some(0)
    else None
  }

  function ParseRange(v: string): (r: Option<Range>)
    ensures r.Some? ==> r.value.Ok()
  {
    var sep := IndexOf(v, ':');
    if sep == |v| then
      match ParseNum(v)
      case None => None
      case Some(n) => Some(Range(n, n))
    else
      match (ParseNum(v[..sep]), ParseNum(v[sep + 1..]))
      case (Some(a), Some(b)) => Some(Ordered(a, b))
      case _ => None
  }

  /** Parsing and adding the items of a set from left to right. */
  function ParseItems(items: seq<string>): (r: Option<seq<Range>>)
    ensures r.Some? ==> Canonical(r.value)
  {
    if items == [] then Some([])
    else
      match (ParseItems(items[..|items| - 1]), ParseRange(items[|items| - 1]))
      case (Some(s), Some(v)) => InsertCanonical(s, v); Some(Insert(s, v))
      case _ => None
  }

  function ParseSet(text: string): (r: Option<seq<Range>>)
    ensures r.Some? ==> Canonical(r.value)
  {
    ParseItems(Split(text, ','))
  }

  // ---------------------------------------------------------------- round trip

  lemma ParseNumText(n: uint32)
    ensures ParseNum(NumText(n)) == Some(n)
  {
    if n == 0 {
      assert !IsDigit("*"[0]);
    } else {
      ParseDigits(n, MAX_UINT32);
    }
  }

  lemma ParseRangeText(r: Range)
    requires r.Ok()
    ensures ParseRange(RangeText(r)) == Some(r)
    ensures ',' !in RangeText(r)
  {
    var a, b := NumText(r.start), NumText(r.stop);
    ParseNumText(r.start);
    ParseNumText(r.stop);
    if r.start == r.stop {
      assert IndexOf(a, ':') == |a|;
    } else {
      var t := a + [':'] + b;
      assert t[..|a|] == a && t[|a| + 1..] == b;
      IndexUnique(t, ':', |a|);
    }
  }

  lemma InsertLast(s: seq<Range>)
    requires Canonical(s) && s != []
    ensures Canonical(s[..|s| - 1]) && s[|s| - 1].Ok()
    ensures Insert(s[..|s| - 1], s[|s| - 1]) == s
  {
    var front, last := s[..|s| - 1], s[|s| - 1];
    InsertSkip(front, last, |front|);
    assert front[|front|..] == [];
  }

  lemma {:induction false} ParseItemsOfCanonical(s: seq<Range>)
    requires Canonical(s)
    ensures ParseItems(RangeTexts(s)) == Some(s)
    decreases |s|
  {
    hide Canonical, Insert, ParseRange, RangeText;
    if s != [] {
      var front, last := s[..|s| - 1], s[|s| - 1];
      InsertLast(s);
      ParseItemsOfCanonical(front);
      assert RangeTexts(s)[..|s| - 1] == RangeTexts(front);
      ParseRangeText(last);
    }
  }

  /** Parsing what String prints gives the set back. */
  lemma ParseSetText(s: seq<Range>)
    requires Canonical(s) && s != []
    ensures ParseSet(SetText(s)) == Some(s)
  {
    forall p | p in RangeTexts(s) ensures ',' !in p {
      var i :| 0 <= i < |s| && p == RangeText(s[i]);
      ParseRangeText(s[i]);
    }
    SplitJoin(RangeTexts(s), ',');
    ParseItemsOfCanonical(s);
  }

  // ---------------------------------------------------------------- order independence

  lemma {:induction false} ParseItemsMembers(items: seq<string>, e: Elem)
    ensures ParseItems(items).Some? <==> forall v | v in items :: ParseRange(v).Some?
    ensures ParseItems(items).Some? ==>
              (InSet(ParseItems(items).value, e)
               <==> exists v | v in items :: InRange(ParseRange(v).value, e))
    decreases |items|
  {
    if items != [] {
      var front, last := items[..|items| - 1], items[|items| - 1];
      assert items == front + [last];
      ParseItemsMembers(front, e);
      if ParseItems(items).Some? {
        InsertMembers(ParseItems(front).value, ParseRange(last).value, e);
      }
    }
  }

  /** The order and repetition of the comma-separated items do not matter. */
  lemma ParseSetOrder(a: string, b: string)
    requires forall v :: v in Split(a, ',') <==> v in Split(b, ',')
    ensures ParseSet(a) == ParseSet(b)
  {
    var xs, ys := Split(a, ','), Split(b, ',');
    ParseItemsMembers(xs, Star);
    ParseItemsMembers(ys, Star);
    if ParseItems(xs).Some? {
      var s, t := ParseItems(xs).value, ParseItems(ys).value;
      forall e ensures InSet(s, e) <==> InSet(t, e) {
        ParseItemsMembers(xs, e);
        ParseItemsMembers(ys, e);
      }
      CanonicalUnique(s, t);
    }
  }

  // ---------------------------------------------------------------- the loops

  /** Set.String: a comma before every range, and the first comma cut off. */
  method SetString(s: seq<Range>) returns (text: string)
    requires forall i | 0 <= i < |s| :: s[i].Ok()
    ensures text == SetText(s)
  {
    if |s| == 0 { return ""; }
    var b := "";
    for i := 0 to |s|
      invariant b == CommaEach(s[..i])
    {
      assert s[..i + 1][..i] == s[..i];
      b := AppendRange(b + [','], s[i]);
    }
    assert s[..|s|] == s;
    CommaEachJoins(s);
    text := b[1..];
  }

  method AppendRange(b0: string, v: Range) returns (b: string)
    requires v.Ok()
    ensures b == b0 + RangeText(v)
  {
    if v.start == 0 {
      return b0 + "*";
    }
    b := b0 + Digits(v.start);
    if v.start != v.stop {
      if v.stop == 0 {
        return b + [':', '*'];
      }
      b := b + [':'] + Digits(v.stop);
    }
  }

  ghost function CommaEach(s: seq<Range>): (b: string) {
    if s == [] then [] else CommaEach(s[..|s| - 1]) + [','] + RangeText(s[|s| - 1])
  }

  lemma {:induction false} CommaEachJoins(s: seq<Range>)
    requires s != []
    ensures CommaEach(s) == [','] + SetText(s)
    decreases |s|
  {
    hide RangeText;
    var front, last := s[..|s| - 1], s[|s| - 1];
    var text := RangeText(last);
    if front != [] {
      CommaEachJoins(front);
      JoinSnoc(RangeTexts(front), text, ',');
      assert RangeTexts(s) == RangeTexts(front) + [text];
      assert SetText(s) == SetText(front) + [','] + text;
    }
  }

  method ParseSetLoop(text: string) returns (r: Option<seq<Range>>)
    ensures r == ParseSet(text)
  {
    var set_ := new Set();
    var items := Split(text, ',');
    for i := 0 to |items|
      invariant set_.Valid() && fresh(set_)
      invariant ParseItems(items[..i]) == Some(set_.ranges)
    {
      assert items[..i + 1][..i] == items[..i];
      var v := ParseRange(items[i]);
      if v.None? {
        ParseItemsFail(items, i);
        return None;
      }
      set_.AddRange(v.value.start, v.value.stop);
    }
    assert items[..|items|] == items;
    r := Some(set_.ranges);
  }

  lemma ParseItemsFail(items: seq<string>, i: nat)
    requires i < |items| && ParseRange(items[i]).None?
    ensures ParseItems(items).None?
  {
    ParseItemsMembers(items, Star);
    assert items[i] in items;
  }
}
