/** SEARCH criteria survive the wire: what the server parses means what the client printed. */
module SearchRoundTrip {
  import opened Text
  import opened NumSet
  import opened NumSetText
  import opened Wire
  import opened Criteria
  import opened SearchKeys
  import opened SearchText

  /** What may follow a key: the next key, the end of a list, the end of the command. */
  predicate Ends(suffix: string) {
    suffix != [] && (suffix[0] == ' ' || suffix[0] == ')' || suffix[0] == '\r')
  }

  predicate IsWord(kw: string) {
    kw != [] && forall i | 0 <= i < |kw| :: 'A' <= kw[i] <= 'Z'
  }

  /** A flag that the server's flag parser accepts. */
  predicate FlagParses(f: string) {
    f == "\\*"
    || var name := if f != [] && f[0] == '\\' then f[1..] else f;
       name != [] && forall i | 0 <= i < |name| :: IsAtomChar(name[i])
  }

  ghost predicate LeafPrintable(c: Conf, leaf: Leaf) {
    match leaf
    case SeqKey(s) => Canonical(s) && s != []
    case UidKey(u) => u.Uids? ==> Canonical(u.s) && u.s != []
    case DayKey(_, t) => PrintableDate(t)
    case HeaderKey(f) => Sendable(c, f.key) && Sendable(c, f.value)
    case BodyKey(s) => Sendable(c, s)
    case TextKey(s) => Sendable(c, s)
    case FlagKey(f) => FlagParses(f)
    case UnflagKey(f) => FlagParses(f)
    case LargerKey(n) => n <= MAX_INT64
    case SmallerKey(n) => n <= MAX_INT64
  }

  // ---------------------------------------------------------------- keywords

  lemma WordChars(kw: string)
    requires IsWord(kw)
    ensures Upper(kw) == kw && forall i | 0 <= i < |kw| :: In(KeyChars, kw[i])
  {
  }

  lemma DayKeywords(k: DateKey)
    ensures IsWord(DayKeyword(k)) && KeywordOf(DayKeyword(k)) == KDay(k)
  {
  }

  lemma TextKeywords()
    ensures KeywordOf("BODY") == KBody && KeywordOf("TEXT") == KText && KeywordOf("HEADER") == KHeader
  {
  }

  lemma FlagArgumentKeywords()
    ensures KeywordOf("KEYWORD") == KKeyword && KeywordOf("UNKEYWORD") == KUnkeyword
  {
  }

  lemma NumberKeywords()
    ensures KeywordOf("UID") == KUid && KeywordOf("LARGER") == KLarger && KeywordOf("SMALLER") == KSmaller
  {
  }

  lemma NestingKeywords()
    ensures KeywordOf("NOT") == KNot && KeywordOf("OR") == KOr && KeywordOf("ALL") == KAll
  {
  }

  lemma FieldKeywords(key: string)
    requires key in FIELD_KEYS
    ensures IsWord(key) && KeywordOf(key) == KField
  {
  }

  lemma FlagWords(f: string)
    requires f in SYSTEM_FLAGS
    ensures FlagSearchKey(f) in ["ANSWERED", "DELETED", "DRAFT", "FLAGGED", "SEEN"]
  {
    assert Upper("Answered") == "ANSWERED" && Upper("Deleted") == "DELETED" && Upper("Draft") == "DRAFT";
    assert Upper("Flagged") == "FLAGGED" && Upper("Seen") == "SEEN";
  }

  lemma FlagKeywords(k: string)
    requires k in ["ANSWERED", "DELETED", "DRAFT", "FLAGGED", "SEEN"]
    ensures IsWord(k) && KeywordOf(k) == KFlag
  {
  }

  lemma UnflagKeywords(k: string)
    requires k in ["ANSWERED", "DELETED", "DRAFT", "FLAGGED", "SEEN"]
    ensures IsWord("UN" + k) && KeywordOf("UN" + k) == KUnflag
  {
    assert "UN" + "ANSWERED" == "UNANSWERED" && "UN" + "DELETED" == "UNDELETED" && "UN" + "DRAFT" == "UNDRAFT";
    assert "UN" + "FLAGGED" == "UNFLAGGED" && "UN" + "SEEN" == "UNSEEN";
  }

  /** Reading a key starts with its keyword. */
  lemma KeywordReads(c: Conf, d: Dec, acc: Criteria, kw: string, suffix: string) returns (d1: Dec)
    requires At(c, d, kw, suffix) && kw != [] && forall i | 0 <= i < |kw| :: In(KeyChars, kw[i])
    requires Ends(suffix)
    ensures Past(d, d1, kw, suffix) && ReadKey(c, d, acc) == ReadKeyWithAtom(c, d1, acc, kw)
  {
    hide KeywordOf;
    FuncReads(c, d, KeyChars, kw, suffix);
    d1 := Func(c, d, KeyChars).d;
  }

  /** A keyword, a space, and then what follows. */
  lemma SpacedReads(c: Conf, d: Dec, acc: Criteria, kw: string, arg: string, suffix: string) returns (d1: Dec, d2: Dec)
    requires At(c, d, kw + (" " + arg), suffix) && IsWord(kw)
    requires arg != [] && arg[0] != '\r' && arg[0] != '\n'
    ensures ReadKey(c, d, acc) == ReadKeyWithAtom(c, d1, acc, kw) && Upper(kw) == kw
    ensures SP(c, d1) == Yes((), d2) && At(c, d2, arg, suffix) && d2.depth == d.depth
    ensures forall d3 | Past(d2, d3, arg, suffix) :: Past(d, d3, kw + (" " + arg), suffix)
  {
    hide ReadKey, ReadKeyWithAtom;
    WordChars(kw);
    AtSplit(c, d, kw, " " + arg, suffix);
    d1 := KeywordReads(c, d, acc, kw, " " + arg + suffix);
    AtSplit(c, d1, " ", arg, suffix);
    SpaceReads(c, d1, arg + suffix);
    d2 := SP(c, d1).d;
  }

  /** A keyword and its argument. */
  lemma ArgumentReads(c: Conf, d: Dec, acc: Criteria, kw: string, k: Keyword, arg: string, suffix: string) returns (d2: Dec)
    requires At(c, d, kw + (" " + arg), suffix) && IsWord(kw)
    requires arg != [] && arg[0] != '\r' && arg[0] != '\n'
    requires KeywordOf(kw) == k && !TakesNothing(k) && !k.KNot? && !k.KOr?
    ensures At(c, d2, arg, suffix)
    ensures forall d3 | Past(d2, d3, arg, suffix) :: Past(d, d3, kw + (" " + arg), suffix)
    ensures ReadKey(c, d, acc) == ReadArgument(c, d2, acc, k, kw)
  {
    hide KeywordOf, ReadKey, ReadArgument;
    var d1;
    d1, d2 := SpacedReads(c, d, acc, kw, arg, suffix);
  }

  // ---------------------------------------------------------------- keys without an argument

  lemma BareReads(c: Conf, d: Dec, acc: Criteria, kw: string, r: Criteria, suffix: string)
    requires At(c, d, kw, suffix) && kw != [] && Upper(kw) == kw && forall i | 0 <= i < |kw| :: In(KeyChars, kw[i])
    requires Ends(suffix)
    requires TakesNothing(KeywordOf(kw)) && ReadBare(acc, KeywordOf(kw), kw) == Some(r)
    ensures ReadsAs(ReadKey(c, d, acc), r, d, kw, suffix)
  {
    hide KeywordOf;
    var d1 := KeywordReads(c, d, acc, kw, suffix);
  }

  predicate NumberChar(ch: char) { IsDigit(ch) || ch == '*' || ch == ':' || ch == ',' }

  lemma {:induction false} JoinChars(parts: seq<string>)
    requires parts != [] && forall p | p in parts :: forall i | 0 <= i < |p| :: NumberChar(p[i])
    ensures forall i | 0 <= i < |Join(parts, ',')| :: NumberChar(Join(parts, ',')[i])
    decreases |parts|
  {
    assert parts[0] in parts;
    if |parts| > 1 { JoinChars(parts[1..]); }
  }

  lemma RangeTextChars(r: Range)
    ensures RangeText(r) != [] && forall i | 0 <= i < |RangeText(r)| :: NumberChar(RangeText(r)[i])
  {
  }

  lemma SetTextChars(s: seq<Range>)
    requires s != []
    ensures SetText(s) != [] && forall i | 0 <= i < |SetText(s)| :: NumberChar(SetText(s)[i])
  {
    forall p | p in RangeTexts(s) ensures forall i | 0 <= i < |p| :: NumberChar(p[i]) {
      var k :| 0 <= k < |s| && p == RangeText(s[k]);
      RangeTextChars(s[k]);
    }
    JoinChars(RangeTexts(s));
    RangeTextChars(s[0]);
    assert RangeTexts(s)[0] == RangeText(s[0]);
  }

  lemma NumberChars(s: string)
    requires forall i | 0 <= i < |s| :: NumberChar(s[i])
    ensures Upper(s) == s && forall i | 0 <= i < |s| :: In(KeyChars, s[i])
  {
  }

  lemma NumbersKeyword(s: string)
    requires s != [] && NumberChar(s[0])
    ensures KeywordOf(s) == KNumbers
  {
  }

  lemma SeqKeyReads(c: Conf, d: Dec, acc: Criteria, s: seq<Range>, suffix: string)
    requires Canonical(s) && s != [] && At(c, d, SetText(s), suffix) && Ends(suffix)
    ensures ReadsAs(ReadKey(c, d, acc), acc.(seqNum := acc.seqNum + [s]), d, SetText(s), suffix)
  {
    hide KeywordOf, ReadKey, ParseSet, SetText, NumberChar;
    var t := SetText(s);
    SetTextChars(s);
    NumbersKeyword(t);
    ParseSetText(s);
    assert Upper(t) == t && forall i | 0 <= i < |t| :: In(KeyChars, t[i]) by { NumberChars(t); }
    BareReads(c, d, acc, t, acc.(seqNum := acc.seqNum + [s]), suffix);
  }

  // ---------------------------------------------------------------- keys with an argument

  lemma UidKeyReads(c: Conf, d: Dec, acc: Criteria, u: UidSet, suffix: string)
    requires u.Uids? ==> Canonical(u.s) && u.s != []
    requires At(c, d, "UID" + (" " + UidText(u)), suffix) && Ends(suffix)
    ensures ReadsAs(ReadKey(c, d, acc), acc.(uid := acc.uid + [u]), d, "UID" + (" " + UidText(u)), suffix)
  {
    hide ReadKey, KeywordOf, SP, Func, ParseSet, SetText;
    NumberKeywords();
    if u.Uids? { SetTextChars(u.s); }
    var d2 := ArgumentReads(c, d, acc, "UID", KUid, UidText(u), suffix);
    if u.SavedResult? {
      AcceptReads(c, d2, '$', suffix);
    } else {
      assert d2.rest[0] == SetText(u.s)[0];
      NumberChars(SetText(u.s));
      FuncReads(c, d2, KeyChars, SetText(u.s), suffix);
      ParseSetText(u.s);
    }
  }

  lemma DayKeyReads(c: Conf, e: Enc, d: Dec, acc: Criteria, k: DateKey, t: Date, suffix: string)
    requires Opposite(c, e) && PrintableDate(t) && (c.literalLimit.Some? ==> c.literalLimit.value >= 11)
    requires At(c, d, DayKeyword(k) + (" " + StringText(e, DateText(t))), suffix)
    ensures ReadsAs(ReadKey(c, d, acc), And(acc, DayCriteria(k, t)), d, DayKeyword(k) + (" " + StringText(e, DateText(t))), suffix)
  {
    hide ReadKey, KeywordOf, DayKeyword, ParseDate, DateText, AString, StringText;
    var s := DateText(t);
    DayKeywords(k);
    StringTextStart(e, s);
    DateRoundTrip(t);
    var d2 := ArgumentReads(c, d, acc, DayKeyword(k), KDay(k), StringText(e, s), suffix);
    StringReads(c, e, d2, s, suffix);
  }

  lemma TextKeyReads(c: Conf, e: Enc, d: Dec, acc: Criteria, kw: string, s: string, suffix: string)
    requires Opposite(c, e) && Sendable(c, s) && IsWord(kw)
    requires KeywordOf(kw).KField? || KeywordOf(kw).KBody? || KeywordOf(kw).KText?
    requires At(c, d, kw + (" " + StringText(e, s)), suffix)
    ensures var k := KeywordOf(kw);
            var r := if k.KField? then acc.(header := acc.header + [Field(Title(Lower(kw)), s)])
                     else if k.KBody? then acc.(body := acc.body + [s])
                     else acc.(text := acc.text + [s]);
            ReadsAs(ReadKey(c, d, acc), r, d, kw + (" " + StringText(e, s)), suffix)
  {
    hide ReadKey, KeywordOf, AString, StringText, IsWord, ReadArgument;
    StringTextStart(e, s);
    var k := KeywordOf(kw);
    var d2 := ArgumentReads(c, d, acc, kw, k, StringText(e, s), suffix);
    StringReads(c, e, d2, s, suffix);
    TextArgument(c, d2, acc, k, kw);
  }

  lemma TextArgument(c: Conf, d: Dec, acc: Criteria, k: Keyword, kw: string)
    requires (k.KField? || k.KBody? || k.KText?) && AString(c, d).Yes?
    ensures var s := AString(c, d);
            ReadArgument(c, d, acc, k, kw) ==
            Yes(if k.KField? then acc.(header := acc.header + [Field(Title(Lower(kw)), s.value)])
                else if k.KBody? then acc.(body := acc.body + [s.value])
                else acc.(text := acc.text + [s.value]), s.d)
  {
    hide AString;
  }

  lemma HeaderKeyReads(c: Conf, e: Enc, d: Dec, acc: Criteria, f: Field, suffix: string)
    requires Opposite(c, e) && Sendable(c, f.key) && Sendable(c, f.value)
    requires At(c, d, "HEADER" + (" " + (StringText(e, f.key) + (" " + StringText(e, f.value)))), suffix)
    ensures ReadsAs(ReadKey(c, d, acc), acc.(header := acc.header + [f]), d,
                    "HEADER" + (" " + (StringText(e, f.key) + (" " + StringText(e, f.value)))), suffix)
  {
    hide ReadKey, KeywordOf, AString, StringText, SP;
    var k, v := StringText(e, f.key), StringText(e, f.value);
    StringTextStart(e, f.key);
    StringTextStart(e, f.value);
    TextKeywords();
    var d2 := ArgumentReads(c, d, acc, "HEADER", KHeader, k + (" " + v), suffix);
    AtSplit(c, d2, k, " " + v, suffix);
    StringReads(c, e, d2, f.key, " " + v + suffix);
    var d3 := AString(c, d2).d;
    AtSplit(c, d3, " ", v, suffix);
    SpaceReads(c, d3, v + suffix);
    StringReads(c, e, SP(c, d3).d, f.value, suffix);
  }

  lemma FlagStart(f: string)
    requires FlagParses(f)
    ensures f != [] && f[0] != '\r' && f[0] != '\n'
  {
    var name := if f != [] && f[0] == '\\' then f[1..] else f;
    assert f == "\\*" || IsAtomChar(name[0]);
  }

  lemma FlagReads(c: Conf, d: Dec, f: string, suffix: string)
    requires FlagParses(f) && At(c, d, f, suffix) && Ends(suffix)
    ensures ReadsAs(ReadFlag(c, d), if f == "\\*" then f else CanonicalFlag(f), d, f, suffix)
  {
    if f == "\\*" {
      assert d.rest[1..] == "*" + suffix;
      assert d.rest[1..][1..] == suffix;
    } else if f[0] == '\\' {
      assert f == "\\" + f[1..];
      AtSplit(c, d, "\\", f[1..], suffix);
      AcceptReads(c, d, '\\', f[1..] + suffix);
      var d1 := Accept(c, d, '\\').d;
      assert d1.rest[0] == f[1] && IsAtomChar(f[1..][0]);
      FuncReads(c, d1, AtomChars, f[1..], suffix);
    } else {
      assert d.rest[0] == f[0] && IsAtomChar(f[0]);
      FuncReads(c, d, AtomChars, f, suffix);
    }
  }

  lemma KeywordKeyReads(c: Conf, d: Dec, acc: Criteria, f: string, un: bool, suffix: string)
    requires FlagParses(f) && Ends(suffix)
    requires At(c, d, (if un then "UNKEYWORD" else "KEYWORD") + (" " + f), suffix)
    ensures var g := if f == "\\*" then f else CanonicalFlag(f);
            ReadsAs(ReadKey(c, d, acc), if un then acc.(notFlag := acc.notFlag + [g]) else acc.(flag := acc.flag + [g]), d,
                    (if un then "UNKEYWORD" else "KEYWORD") + (" " + f), suffix)
  {
    hide ReadKey, KeywordOf, ReadFlag, CanonicalFlag;
    FlagArgumentKeywords();
    var kw := if un then "UNKEYWORD" else "KEYWORD";
    FlagStart(f);
    var d2 := ArgumentReads(c, d, acc, kw, if un then KUnkeyword else KKeyword, f, suffix);
    FlagReads(c, d2, f, suffix);
  }

  lemma SizeKeyReads(c: Conf, d: Dec, acc: Criteria, n: nat, small: bool, suffix: string)
    requires n <= MAX_INT64 && Ends(suffix)
    requires At(c, d, (if small then "SMALLER" else "LARGER") + (" " + Digits(n)), suffix)
    ensures ReadsAs(ReadKey(c, d, acc), And(acc, if small then EMPTY.(smaller := n) else EMPTY.(larger := n)), d,
                    (if small then "SMALLER" else "LARGER") + (" " + Digits(n)), suffix)
  {
    hide ReadKey, KeywordOf, Number, Digits, And;
    NumberKeywords();
    assert IsDigit(Digits(n)[0]);
    var d2 := ArgumentReads(c, d, acc, if small then "SMALLER" else "LARGER", if small then KSmaller else KLarger, Digits(n), suffix);
    NumberReads(c, d2, n, MAX_INT64, suffix);
  }

  // ---------------------------------------------------------------- any leaf

  lemma WildcardFlag()
    ensures CanonicalFlag("\\*") == "\\*"
  {
    hide FindFlag;
    WildcardUnknown(KNOWN_FLAGS);
  }

  lemma {:induction false} WildcardUnknown(known: seq<string>)
    requires forall f | f in known :: |f| > 2
    ensures FindFlag(known, "\\*") == "\\*"
    decreases |known|
  {
    if known != [] {
      assert known[0] in known;
      assert |Lower(known[0])| > 2 && |Lower("\\*")| == 2;
      WildcardUnknown(known[1..]);
    }
  }

  lemma FlagLeafReads(c: Conf, d: Dec, e: Enc, acc: Criteria, f: string, un: bool, suffix: string)
    requires FlagParses(f) && Ends(suffix)
    requires var leaf := if un then UnflagKey(f) else FlagKey(f); At(c, d, LeafText(e, leaf), suffix)
    ensures var leaf := if un then UnflagKey(f) else FlagKey(f);
            ReadsAs(ReadKey(c, d, acc), AddLeaf(acc, leaf), d, LeafText(e, leaf), suffix)
  {
    hide ReadKey, KeywordOf, CanonicalFlag, SearchKeyFlag, FlagSearchKey;
    if FlagSearchKey(f) != "" {
      assert f in SYSTEM_FLAGS by { SystemFlag(f); }
      FlagWords(f);
      var k := FlagSearchKey(f);
      FlagKeywords(k);
      UnflagKeywords(k);
      WordChars(k);
      WordChars("UN" + k);
      assert ("UN" + k)[2..] == k;
      BareReads(c, d, acc, if un then "UN" + k else k, AddLeaf(acc, if un then UnflagKey(f) else FlagKey(f)), suffix);
    } else {
      WildcardFlag();
      KeywordKeyReads(c, d, acc, f, un, suffix);
    }
  }

  lemma SystemFlag(f: string)
    requires FlagSearchKey(f) != ""
    ensures f in SYSTEM_FLAGS
  {
  }

  lemma FieldLeafReads(c: Conf, e: Enc, d: Dec, acc: Criteria, f: Field, suffix: string)
    requires Opposite(c, e) && LeafPrintable(c, HeaderKey(f)) && At(c, d, LeafText(e, HeaderKey(f)), suffix)
    ensures ReadsAs(ReadKey(c, d, acc), AddLeaf(acc, HeaderKey(f)), d, LeafText(e, HeaderKey(f)), suffix)
  {
    hide ReadKey, KeywordOf, StringText;
    if Upper(f.key) in FIELD_KEYS {
      FieldKeywords(Upper(f.key));
      TextKeyReads(c, e, d, acc, Upper(f.key), f.value, suffix);
    } else {
      HeaderKeyReads(c, e, d, acc, f, suffix);
    }
  }

  /** A key that was printed is read back as the leaf it stands for. */
  lemma LeafReads(c: Conf, e: Enc, d: Dec, acc: Criteria, leaf: Leaf, suffix: string)
    requires Opposite(c, e) && Ends(suffix) && LeafPrintable(c, leaf)
    requires c.literalLimit.Some? ==> c.literalLimit.value >= 11
    requires At(c, d, LeafText(e, leaf), suffix)
    ensures ReadsAs(ReadKey(c, d, acc), AddLeaf(acc, leaf), d, LeafText(e, leaf), suffix)
  {
    hide ReadKey, KeywordOf, StringText, DateText, SetText, UidText, Digits, And, FlagSearchKey, DayKeyword;
    match leaf
    case SeqKey(s) => SeqKeyReads(c, d, acc, s, suffix);
    case UidKey(u) => UidKeyReads(c, d, acc, u, suffix);
    case DayKey(k, t) => DayKeyReads(c, e, d, acc, k, t, suffix);
    case HeaderKey(f) => FieldLeafReads(c, e, d, acc, f, suffix);
    case BodyKey(s) => TextKeywords(); TextKeyReads(c, e, d, acc, "BODY", s, suffix);
    case TextKey(s) => TextKeywords(); TextKeyReads(c, e, d, acc, "TEXT", s, suffix);
    case FlagKey(f) => FlagLeafReads(c, d, e, acc, f, false, suffix);
    case UnflagKey(f) => FlagLeafReads(c, d, e, acc, f, true, suffix);
    case LargerKey(n) => SizeKeyReads(c, d, acc, n, false, suffix);
    case SmallerKey(n) => SizeKeyReads(c, d, acc, n, true, suffix);
  }

  // ---------------------------------------------------------------- trees

  /** The criteria tree can be printed for this reader. */
  ghost predicate TreeOk(c: Conf, t: Criteria) {
    && t.larger >= 0 && t.smaller >= 0
    && (forall i | 0 <= i < |Leaves(t)| :: LeafPrintable(c, Leaves(t)[i]))
    && (forall i | 0 <= i < |t.not| :: TreeOk(c, t.not[i]))
    && (forall i | 0 <= i < |t.or| :: TreeOk(c, t.or[i].left) && TreeOk(c, t.or[i].right))
  }

  /** Criteria are nested at most k deep. */
  ghost predicate Nested(t: Criteria, k: nat) {
    && (forall i | 0 <= i < |t.not| :: k > 0 && Nested(t.not[i], k - 1))
    && (forall i | 0 <= i < |t.or| :: k > 0 && Nested(t.or[i].left, k - 1) && Nested(t.or[i].right, k - 1))
  }

  function Items(e: Enc, t: Criteria): (r: seq<string>)
    ensures |r| == |Leaves(t)| + |t.not| + |t.or|
  {
    LeafTexts(e, Leaves(t)) + NotTexts(e, t, |t.not|) + OrTexts(e, t, |t.or|)
  }

  /** The server's criteria after the first i items. */
  function Partial(t: Criteria, i: nat): (r: Criteria)
    requires i <= |Leaves(t)| + |t.not| + |t.or|
  {
    var leaves := |Leaves(t)|;
    if i <= leaves then AddLeaves(Leaves(t)[..i])
    else if i <= leaves + |t.not| then AddLeaves(Leaves(t)).(not := NormalNots(t, i - leaves))
    else AddLeaves(Leaves(t)).(not := NormalNots(t, |t.not|), or := NormalOrs(t, i - leaves - |t.not|))
  }

  lemma AddLeafFlat(acc: Criteria, leaf: Leaf)
    requires acc.not == [] && acc.or == []
    ensures AddLeaf(acc, leaf).not == [] && AddLeaf(acc, leaf).or == []
  {
  }

  lemma {:induction false} AddLeavesFlat(leaves: seq<Leaf>)
    ensures AddLeaves(leaves).not == [] && AddLeaves(leaves).or == []
    decreases |leaves|
  {
    hide AddLeaf;
    if leaves != [] {
      AddLeavesFlat(leaves[..|leaves| - 1]);
      AddLeafFlat(AddLeaves(leaves[..|leaves| - 1]), leaves[|leaves| - 1]);
    }
  }

  lemma PartialStart(t: Criteria)
    ensures Partial(t, 0) == EMPTY
  {
    hide Leaves;
    assert Leaves(t)[..0] == [];
  }

  lemma PartialEnd(t: Criteria)
    ensures Partial(t, |Leaves(t)| + |t.not| + |t.or|) == Normal(t)
  {
    AddLeavesFlat(Leaves(t));
    hide Leaves, AddLeaves;
    assert Leaves(t)[..|Leaves(t)|] == Leaves(t);
  }

  lemma PartialLeaf(t: Criteria, i: nat)
    requires i < |Leaves(t)|
    ensures Partial(t, i + 1) == AddLeaf(Partial(t, i), Leaves(t)[i])
  {
    assert Leaves(t)[..i + 1][..i] == Leaves(t)[..i];
  }

  lemma PartialNot(t: Criteria, i: nat)
    requires i < |t.not|
    ensures var acc := Partial(t, |Leaves(t)| + i);
            Partial(t, |Leaves(t)| + i + 1) == acc.(not := acc.not + [Normal(t.not[i])])
  {
    AddLeavesFlat(Leaves(t));
    hide AddLeaves, Leaves, Normal;
    assert Leaves(t)[..|Leaves(t)|] == Leaves(t);
  }

  lemma PartialOr(t: Criteria, i: nat)
    requires i < |t.or|
    ensures var acc := Partial(t, |Leaves(t)| + |t.not| + i);
            Partial(t, |Leaves(t)| + |t.not| + i + 1)
            == acc.(or := acc.or + [Pair(Normal(t.or[i].left), Normal(t.or[i].right))])
  {
    AddLeavesFlat(Leaves(t));
    hide AddLeaves, Leaves, Normal;
    assert Leaves(t)[..|Leaves(t)|] == Leaves(t);
  }

  lemma {:induction false} NotTextsAt(e: Enc, t: Criteria, k: nat, i: nat)
    requires i < k <= |t.not|
    ensures NotTexts(e, t, k)[i] == "NOT" + (" " + ("(" + (KeyText(e, t.not[i]) + ")")))
    decreases k
  {
    hide KeyText;
    if i < k - 1 { NotTextsAt(e, t, k - 1, i); }
  }

  lemma {:induction false} OrTextsAt(e: Enc, t: Criteria, k: nat, i: nat)
    requires i < k <= |t.or|
    ensures OrTexts(e, t, k)[i]
            == "OR" + (" " + (("(" + (KeyText(e, t.or[i].left) + ")")) + (" " + ("(" + (KeyText(e, t.or[i].right) + ")")))))
    decreases k
  {
    hide KeyText;
    if i < k - 1 { OrTextsAt(e, t, k - 1, i); }
  }

  predicate Starts(s: string) {
    s != [] && s[0] != '\r' && s[0] != '\n' && s[0] != ')' && s[0] != ' '
  }

  lemma LeafStarts(c: Conf, e: Enc, leaf: Leaf)
    requires LeafPrintable(c, leaf)
    ensures Starts(LeafText(e, leaf))
  {
    hide StringText, DateText, UidText, Digits;
    match leaf
    case SeqKey(s) => SetTextChars(s);
    case FlagKey(f) => if FlagSearchKey(f) != "" { SystemFlag(f); FlagWords(f); FlagKeywords(FlagSearchKey(f)); }
    case HeaderKey(f) => if Upper(f.key) in FIELD_KEYS { FieldKeywords(Upper(f.key)); }
    case _ =>
  }

  lemma NotStarts(e: Enc, t: Criteria, i: nat)
    requires i < |t.not|
    ensures Starts(NotTexts(e, t, |t.not|)[i])
  {
    hide NotTexts, KeyText;
    NotTextsAt(e, t, |t.not|, i);
  }

  lemma OrStarts(e: Enc, t: Criteria, i: nat)
    requires i < |t.or|
    ensures Starts(OrTexts(e, t, |t.or|)[i])
  {
    hide OrTexts, KeyText;
    OrTextsAt(e, t, |t.or|, i);
  }

  lemma ItemStarts(c: Conf, e: Enc, t: Criteria, i: nat)
    requires TreeOk(c, t) && i < |Items(e, t)|
    ensures Starts(Items(e, t)[i])
  {
    hide LeafText, LeafPrintable, KeyText, Leaves, NotTexts, OrTexts, Starts;
    var n := |Leaves(t)|;
    if i < n {
      LeafStarts(c, e, Leaves(t)[i]);
    } else if i < n + |t.not| {
      NotStarts(e, t, i - n);
    } else {
      OrStarts(e, t, i - n - |t.not|);
    }
  }

  lemma JoinStarts(parts: seq<string>)
    requires parts != [] && Starts(parts[0])
    ensures Starts(Join(parts, ' '))
  {
  }

  lemma KeyTextJoins(e: Enc, t: Criteria)
    ensures KeyText(e, t) == if Items(e, t) == [] then "ALL" else Join(Items(e, t), ' ')
    ensures Items(e, t) == [] ==> |Items(e, t)| == 0
  {
  }

  lemma KeyTextStarts(c: Conf, e: Enc, t: Criteria)
    requires TreeOk(c, t)
    ensures Starts(KeyText(e, t))
  {
    hide TreeOk;
    if Items(e, t) != [] {
      ItemStarts(c, e, t, 0);
      JoinStarts(Items(e, t));
    }
  }

  // ---------------------------------------------------------------- the induction

  /** One printed item is read back into the growing criteria. */
  lemma {:induction false} ItemReads(c: Conf, e: Enc, d: Dec, t: Criteria, k: nat, i: nat, suffix: string)
    requires Opposite(c, e) && (c.literalLimit.Some? ==> c.literalLimit.value >= 11)
    requires TreeOk(c, t) && Nested(t, k) && d.depth + k < MAX_LIST_DEPTH
    requires i < |Items(e, t)| && At(c, d, Items(e, t)[i], suffix) && Ends(suffix)
    ensures ReadsAs(ReadKey(c, d, Partial(t, i)), Partial(t, i + 1), d, Items(e, t)[i], suffix)
    decreases t, 0, 0
  {
    hide ReadKey, Partial, AddLeaf, LeafText, LeafPrintable, KeyText, Leaves, Normal;
    var n := |Leaves(t)|;
    if i < n {
      LeafReads(c, e, d, Partial(t, i), Leaves(t)[i], suffix);
      PartialLeaf(t, i);
    } else if i < n + |t.not| {
      NotTextsAt(e, t, |t.not|, i - n);
      NotReads(c, e, d, Partial(t, i), t.not[i - n], k - 1, suffix);
      PartialNot(t, i - n);
    } else {
      var j := i - n - |t.not|;
      OrTextsAt(e, t, |t.or|, j);
      OrReads(c, e, d, Partial(t, i), t.or[j], k - 1, suffix);
      PartialOr(t, j);
    }
  }

  lemma {:induction false} NotReads(c: Conf, e: Enc, d: Dec, acc: Criteria, t: Criteria, k: nat, suffix: string)
    requires Opposite(c, e) && (c.literalLimit.Some? ==> c.literalLimit.value >= 11)
    requires TreeOk(c, t) && Nested(t, k) && d.depth + k + 1 < MAX_LIST_DEPTH
    requires At(c, d, "NOT" + (" " + ("(" + (KeyText(e, t) + ")"))), suffix) && Ends(suffix)
    ensures ReadsAs(ReadKey(c, d, acc), acc.(not := acc.not + [Normal(t)]), d, "NOT" + (" " + ("(" + (KeyText(e, t) + ")"))), suffix)
    decreases t, 3, 0
  {
    var text := "(" + (KeyText(e, t) + ")");
    NestingKeywords();
    hide ReadKey, KeyText, KeywordOf, Normal, TreeOk, Nested;
    var d1, d2 := SpacedReads(c, d, acc, "NOT", text, suffix);
    GroupReads(c, e, d2, t, k, suffix);
  }

  lemma {:induction false} OrReads(c: Conf, e: Enc, d: Dec, acc: Criteria, p: Pair, k: nat, suffix: string)
    requires Opposite(c, e) && (c.literalLimit.Some? ==> c.literalLimit.value >= 11)
    requires TreeOk(c, p.left) && Nested(p.left, k) && TreeOk(c, p.right) && Nested(p.right, k)
    requires d.depth + k + 1 < MAX_LIST_DEPTH && Ends(suffix)
    requires At(c, d, "OR" + (" " + (("(" + (KeyText(e, p.left) + ")")) + (" " + ("(" + (KeyText(e, p.right) + ")"))))), suffix)
    ensures ReadsAs(ReadKey(c, d, acc), acc.(or := acc.or + [Pair(Normal(p.left), Normal(p.right))]), d,
                    "OR" + (" " + (("(" + (KeyText(e, p.left) + ")")) + (" " + ("(" + (KeyText(e, p.right) + ")"))))), suffix)
    decreases p, 3, 0
  {
    var a, b := "(" + (KeyText(e, p.left) + ")"), "(" + (KeyText(e, p.right) + ")");
    NestingKeywords();
    hide ReadKey, KeyText, KeywordOf, Normal, TreeOk, Nested;
    var d1, d2 := SpacedReads(c, d, acc, "OR", a + (" " + b), suffix);
    AtSplit(c, d2, a, " " + b, suffix);
    GroupReads(c, e, d2, p.left, k, " " + b + suffix);
    var d3 := ReadKey(c, d2, EMPTY).d;
    AtSplit(c, d3, " ", b, suffix);
    SpaceReads(c, d3, b + suffix);
    GroupReads(c, e, SP(c, d3).d, p.right, k, suffix);
  }

  /** A parenthesized criteria is read as one key. */
  lemma {:induction false} GroupReads(c: Conf, e: Enc, d: Dec, t: Criteria, k: nat, suffix: string)
    requires Opposite(c, e) && (c.literalLimit.Some? ==> c.literalLimit.value >= 11)
    requires TreeOk(c, t) && Nested(t, k) && d.depth + k + 1 < MAX_LIST_DEPTH
    requires At(c, d, "(" + (KeyText(e, t) + ")"), suffix)
    ensures ReadsAs(ReadKey(c, d, EMPTY), Normal(t), d, "(" + (KeyText(e, t) + ")"), suffix)
    decreases t, 2, 0
  {
    var text := KeyText(e, t) + ")";
    KeyTextStarts(c, e, t);
    hide KeyText, Normal, TreeOk, Nested, ReadList, ReadKey, ReadKeyWithAtom;
    var d2 := OpenReads(c, d, text, suffix);
    ListStart(c, e, d2, t, k, suffix);
  }

  /** An opening parenthesis in front of keys starts a list. */
  lemma OpenReads(c: Conf, d: Dec, text: string, suffix: string) returns (d2: Dec)
    requires At(c, d, "(" + text, suffix) && Starts(text) && d.depth + 1 < MAX_LIST_DEPTH
    ensures At(c, d2, text, suffix) && d2.depth == d.depth + 1
    ensures forall d3 | Past(d2, d3, text, suffix) :: Past(d, d3.(depth := d.depth), "(" + text, suffix)
    ensures var r := ReadList(c, d2, EMPTY);
            r.Yes? ==> ReadKey(c, d, EMPTY) == Yes(r.value, r.d.(depth := d.depth))
  {
    hide ReadList, ReadKeyWithAtom;
    AtSplit(c, d, "(", text, suffix);
    assert d.rest[0] == '(' && Take(d, 0) == d;
    assert Func(c, d, KeyChars) == No(d);
    AcceptReads(c, d, '(', text + suffix);
    var d1 := Accept(c, d, '(').d;
    assert d1.rest[0] == text[0];
    d2 := d1.(depth := d.depth + 1);
  }

  lemma AllReads(c: Conf, d: Dec, suffix: string)
    requires At(c, d, "ALL", suffix) && Ends(suffix)
    ensures ReadsAs(ReadKey(c, d, EMPTY), EMPTY, d, "ALL", suffix)
  {
    NestingKeywords();
    hide ReadKey, KeywordOf;
    WordChars("ALL");
    BareReads(c, d, EMPTY, "ALL", EMPTY, suffix);
  }

  lemma {:induction false} ListStart(c: Conf, e: Enc, d: Dec, t: Criteria, k: nat, suffix: string)
    requires Opposite(c, e) && (c.literalLimit.Some? ==> c.literalLimit.value >= 11)
    requires TreeOk(c, t) && Nested(t, k) && d.depth + k < MAX_LIST_DEPTH
    requires At(c, d, KeyText(e, t) + ")", suffix)
    ensures ReadsAs(ReadList(c, d, EMPTY), Normal(t), d, KeyText(e, t) + ")", suffix)
    decreases t, 1, |Items(e, t)| + 1
  {
    PartialStart(t);
    PartialEnd(t);
    KeyTextJoins(e, t);
    hide ReadKey, Partial, Normal, TreeOk, Nested, Leaves, KeyText, Items;
    if Items(e, t) == [] {
      AtSplit(c, d, "ALL", ")", suffix);
      AllReads(c, d, ")" + suffix);
      AcceptReads(c, ReadKey(c, d, EMPTY).d, ')', suffix);
    } else {
      assert Items(e, t)[0..] == Items(e, t);
      ListReads(c, e, d, t, k, 0, suffix);
    }
  }

  /** From item i to the closing parenthesis. */
  lemma {:induction false} ListReads(c: Conf, e: Enc, d: Dec, t: Criteria, k: nat, i: nat, suffix: string)
    requires Opposite(c, e) && (c.literalLimit.Some? ==> c.literalLimit.value >= 11)
    requires TreeOk(c, t) && Nested(t, k) && d.depth + k < MAX_LIST_DEPTH
    requires i < |Items(e, t)| && At(c, d, Join(Items(e, t)[i..], ' ') + ")", suffix)
    ensures ReadsAs(ReadList(c, d, Partial(t, i)), Partial(t, |Items(e, t)|), d, Join(Items(e, t)[i..], ' ') + ")", suffix)
    decreases t, 1, |Items(e, t)| - i
  {
    hide ReadKey, Partial, TreeOk, Nested, Items;
    var items := Items(e, t);
    if i == |items| - 1 {
      assert items[i..] == [items[i]];
      AtSplit(c, d, items[i], ")", suffix);
      ItemReads(c, e, d, t, k, i, ")" + suffix);
      AcceptReads(c, ReadKey(c, d, Partial(t, i)).d, ')', suffix);
    } else {
      var rest := Join(items[i + 1..], ' ') + ")";
      assert items[i..][1..] == items[i + 1..];
      assert Join(items[i..], ' ') + ")" == items[i] + (" " + rest);
      AtSplit(c, d, items[i], " " + rest, suffix);
      ItemReads(c, e, d, t, k, i, " " + rest + suffix);
      var d1 := ReadKey(c, d, Partial(t, i)).d;
      assert d1.rest[0] == ' ';
      assert Accept(c, d1, ')').No?;
      AtSplit(c, d1, " ", rest, suffix);
      ItemStarts(c, e, t, i + 1);
      JoinStarts(items[i + 1..]);
      SpaceReads(c, d1, rest + suffix);
      ListReads(c, e, SP(c, d1).d, t, k, i + 1, suffix);
    }
  }

  // ---------------------------------------------------------------- the whole command

  lemma LineEnds(c: Conf, d: Dec, suffix: string)
    requires d.rest == suffix && suffix != [] && suffix[0] == '\r'
    ensures SP(c, d) == No(d)
  {
  }

  lemma {:induction false} KeysRead(c: Conf, e: Enc, d: Dec, t: Criteria, k: nat, i: nat, suffix: string)
    requires Opposite(c, e) && (c.literalLimit.Some? ==> c.literalLimit.value >= 11)
    requires TreeOk(c, t) && Nested(t, k) && d.depth + k < MAX_LIST_DEPTH
    requires i < |Items(e, t)| && At(c, d, Join(Items(e, t)[i..], ' '), suffix)
    requires suffix != [] && suffix[0] == '\r'
    ensures ReadsAs(ReadKeys(c, d, Partial(t, i)), Partial(t, |Items(e, t)|), d, Join(Items(e, t)[i..], ' '), suffix)
    decreases |Items(e, t)| - i
  {
    hide ReadKey, Partial, TreeOk, Nested, Items;
    var items := Items(e, t);
    if i == |items| - 1 {
      assert items[i..] == [items[i]];
      ItemReads(c, e, d, t, k, i, suffix);
      LineEnds(c, ReadKey(c, d, Partial(t, i)).d, suffix);
    } else {
      var rest := Join(items[i + 1..], ' ');
      assert items[i..][1..] == items[i + 1..];
      assert Join(items[i..], ' ') == items[i] + (" " + rest);
      AtSplit(c, d, items[i], " " + rest, suffix);
      ItemReads(c, e, d, t, k, i, " " + rest + suffix);
      var d1 := ReadKey(c, d, Partial(t, i)).d;
      AtSplit(c, d1, " ", rest, suffix);
      ItemStarts(c, e, t, i + 1);
      JoinStarts(items[i + 1..]);
      SpaceReads(c, d1, rest + suffix);
      KeysRead(c, e, SP(c, d1).d, t, k, i + 1, suffix);
    }
  }

  /** The whole printed criteria is read as its normal form, up to the end of the line. */
  lemma CommandReads(c: Conf, e: Enc, d: Dec, t: Criteria, k: nat, suffix: string)
    requires Opposite(c, e) && (c.literalLimit.Some? ==> c.literalLimit.value >= 11)
    requires TreeOk(c, t) && Nested(t, k) && d.depth + k < MAX_LIST_DEPTH
    requires At(c, d, KeyText(e, t), suffix) && suffix != [] && suffix[0] == '\r'
    ensures ReadsAs(ReadKeys(c, d, EMPTY), Normal(t), d, KeyText(e, t), suffix)
  {
    PartialStart(t);
    PartialEnd(t);
    KeyTextJoins(e, t);
    hide ReadKey, Partial, Normal, TreeOk, Nested, Leaves, KeyText, Items;
    if Items(e, t) == [] {
      AllReads(c, d, suffix);
      LineEnds(c, ReadKey(c, d, EMPTY).d, suffix);
    } else {
      assert Items(e, t)[0..] == Items(e, t);
      KeysRead(c, e, d, t, k, 0, suffix);
    }
  }

  /** A server's decoder: commands of 50 KiB, literals of 4096 bytes. */
  const SERVER: Conf := Conf(true, 50 * 1024, Some(4096), s => s)

  lemma {:induction false} TreeSizes(c: Conf, t: Criteria)
    requires TreeOk(c, t)
    ensures SizesOk(t)
    decreases t
  {
    hide Leaves, LeafPrintable;
    forall i | 0 <= i < |t.not| ensures SizesOk(t.not[i]) { TreeSizes(c, t.not[i]); }
    forall i | 0 <= i < |t.or| ensures SizesOk(t.or[i].left) && SizesOk(t.or[i].right) {
      TreeSizes(c, t.or[i].left);
      TreeSizes(c, t.or[i].right);
    }
  }

  /** SEARCH means the same on both sides: whatever a client prints, within the server's
      limits, the server reads it to the end of the line and builds criteria that select the
      same messages. */
  lemma SearchSurvives(e: Enc, d: Dec, t: Criteria, more: string, n: nat, m: Message)
    requires e.client && TreeOk(SERVER, t) && Nested(t, 999) && d.depth == 0
    requires At(SERVER, d, KeyText(e, t), "\r\n" + more)
    ensures var r := ReadKeys(SERVER, d, EMPTY);
            r.Yes? && r.d.rest == "\r\n" + more && (Matches(n, m, r.value) <==> Matches(n, m, t))
  {
    hide Normal, Matches;
    CommandReads(SERVER, e, d, t, 999, "\r\n" + more);
    TreeSizes(SERVER, t);
    NormalMeans(n, m, t);
  }

  // ---------------------------------------------------------------- key sequences in any order

  lemma {:induction false} SequenceReads(c: Conf, e: Enc, d: Dec, leaves: seq<Leaf>, i: nat, suffix: string)
    requires Opposite(c, e) && (c.literalLimit.Some? ==> c.literalLimit.value >= 11)
    requires i < |leaves| && forall k | 0 <= k < |leaves| :: LeafPrintable(c, leaves[k])
    requires At(c, d, Join(LeafTexts(e, leaves[i..]), ' '), suffix) && suffix != [] && suffix[0] == '\r'
    ensures ReadsAs(ReadKeys(c, d, AddLeaves(leaves[..i])), AddLeaves(leaves), d, Join(LeafTexts(e, leaves[i..]), ' '), suffix)
    decreases |leaves| - i
  {
    hide ReadKey, LeafText, LeafPrintable, AddLeaf;
    var acc, texts := AddLeaves(leaves[..i]), LeafTexts(e, leaves[i..]);
    assert leaves[..i + 1][..i] == leaves[..i];
    if i == |leaves| - 1 {
      assert texts == [LeafText(e, leaves[i])] && leaves[..i + 1] == leaves;
      LeafReads(c, e, d, acc, leaves[i], suffix);
      LineEnds(c, ReadKey(c, d, acc).d, suffix);
    } else {
      var rest := Join(LeafTexts(e, leaves[i + 1..]), ' ');
      assert texts[0] == LeafText(e, leaves[i]) && texts[1..] == LeafTexts(e, leaves[i + 1..]);
      assert Join(texts, ' ') == texts[0] + (" " + rest);
      AtSplit(c, d, texts[0], " " + rest, suffix);
      LeafReads(c, e, d, acc, leaves[i], " " + rest + suffix);
      var d1 := ReadKey(c, d, acc).d;
      AtSplit(c, d1, " ", rest, suffix);
      LeafStarts(c, e, leaves[i + 1]);
      JoinStarts(LeafTexts(e, leaves[i + 1..]));
      SpaceReads(c, d1, rest + suffix);
      SequenceReads(c, e, SP(c, d1).d, leaves, i + 1, suffix);
    }
  }

  /** The meaning of every key sequence that a client may send, in whatever order and with whatever
      arguments: the server's criteria match a message exactly when all the surviving keys hold. */
  lemma SequenceMeans(e: Enc, d: Dec, leaves: seq<Leaf>, more: string, n: nat, m: Message)
    requires e.client && leaves != [] && forall k | 0 <= k < |leaves| :: LeafPrintable(SERVER, leaves[k])
    requires At(SERVER, d, Join(LeafTexts(e, leaves), ' '), "\r\n" + more)
    ensures var r := ReadKeys(SERVER, d, EMPTY);
            && r.Yes? && r.d.rest == "\r\n" + more
            && (Matches(n, m, r.value) <==> AllHold(n, m, Surviving(leaves)))
  {
    hide FlatMatches, AllHold, Surviving, LeafPrintable, ReadKeys, AddLeaf;
    assert leaves[0..] == leaves && leaves[..0] == [];
    SequenceReads(SERVER, e, d, leaves, 0, "\r\n" + more);
    KeySequenceMeans(n, m, leaves);
  }

  /** Inputs on which a key is lost: behind SMALLER, a date key, LARGER and SMALLER 0 erase the limit, and
      SMALLER 0 itself matches every size. */
  lemma LimitLost(k: nat, leaf: Leaf)
    requires k > 0 && Resets(leaf)
    ensures Surviving([SmallerKey(k), leaf]) == Effective(leaf)
    ensures Surviving([leaf, SmallerKey(k)]) == Effective(leaf) + [SmallerKey(k)]
    ensures Surviving([SmallerKey(0)]) == []
  {
    hide Effective, Surviving, Resets, WithoutSmaller;
    SmallerEffects(k);
    EffectiveSmaller(SmallerKey(k));
    SurvivingTwo(SmallerKey(0), leaf);
    SurvivingTwo(SmallerKey(k), leaf);
    SurvivingTwo(leaf, SmallerKey(k));
  }

  lemma SmallerEffects(k: nat)
    requires k > 0
    ensures Effective(SmallerKey(k)) == [SmallerKey(k)] && Effective(SmallerKey(0)) == [] && !Resets(SmallerKey(k))
  {
  }

  lemma SurvivingTwo(a: Leaf, b: Leaf)
    ensures Surviving([a]) == Effective(a)
    ensures Surviving([a, b]) == (if Resets(b) then WithoutSmaller(Effective(a)) else Effective(a)) + Effective(b)
  {
    assert [a, b][..1] == [a] && [a][..0] == [];
    hide Effective;
    assert Surviving([]) == [] && WithoutSmaller([]) == [];
  }
}
