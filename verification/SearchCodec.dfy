/** The search key writer of imapclient/search.go and the search key reader of imapserver/search.go at
    work on an encoder and a decoder, proved against KeyText and ReadKey. */
module SearchCodec {
  import opened Text
  import opened NumSet
  import opened NumSetText
  import opened Wire
  import opened WireCodec
  import opened Criteria
  import opened SearchKeys
  import opened SearchText

  // ---------------------------------------------------------------- writing

  predicate FlagChars(s: string) {
    s != [] && forall i | 0 <= i < |s| :: IsAtomChar(s[i]) || (i == 0 && s[0] == '\\')
  }

  /** The keys that the encoder takes without an error. */
  predicate LeafEncodable(leaf: Leaf) {
    match leaf
    case SeqKey(x) => SetText(x) != ""
    case UidKey(u) => UidText(u) != ""
    case FlagKey(f) => FlagSearchKey(f) != "" || f == "\\*" || FlagChars(f)
    case UnflagKey(f) => FlagSearchKey(f) != "" || f == "\\*" || FlagChars(f)
    case _ => true
  }

  ghost predicate Encodable(c: Criteria)
    decreases c
  {
    && (forall i | 0 <= i < |Leaves(c)| :: LeafEncodable(Leaves(c)[i]))
    && (forall i | 0 <= i < |c.not| :: Encodable(c.not[i]))
    && (forall i | 0 <= i < |c.or| :: Encodable(c.or[i].left) && Encodable(c.or[i].right))
  }

  /** isValidFlag of internal/imapwire. */
  method ValidFlag(s: string) returns (ok: bool)
    ensures ok == FlagChars(s)
  {
    var i := 0;
    while i < |s|
      invariant i <= |s| && forall k | 0 <= k < i :: IsAtomChar(s[k]) || (k == 0 && s[0] == '\\')
    {
      if s[i] == '\\' {
        if i != 0 { return false; }
      } else if !IsAtomChar(s[i]) {
        return false;
      }
      i := i + 1;
    }
    ok := |s| > 0;
  }

  /** Encoder.Flag: an invalid flag is an error. */
  method WriteFlag(enc: Encoder, f: string)
    modifies enc
    ensures enc.err == (old(enc.err) || !(f == "\\*" || FlagChars(f))) && (!enc.err ==> enc.out == old(enc.out) + f)
  {
    var ok := ValidFlag(f);
    if f != "\\*" && !ok { enc.err := true; } else { enc.WriteString(f); }
  }

  /** Encoder.NumSet: an empty set is an error. */
  method WriteNumSet(enc: Encoder, s: string)
    modifies enc
    ensures enc.err == (old(enc.err) || s == "") && (!enc.err ==> enc.out == old(enc.out) + s)
  {
    if s == "" { enc.err := true; } else { enc.WriteString(s); }
  }

  /** A keyword and a string. */
  method WriteStringKey(enc: Encoder, kw: string, s: string)
    modifies enc
    ensures enc.err == old(enc.err) && (!enc.err ==> enc.out == old(enc.out) + (kw + (" " + StringText(enc.conf, s))))
  {
    hide StringText;
    enc.WriteString(kw);
    enc.WriteString(" ");
    enc.Write(s);
  }

  lemma Glue(o: string, a: string, b: string, c: string)
    ensures o + a + b + c == o + (a + (b + c)) && o + (a + b) + c == o + (a + (b + c))
  {
  }

  method WriteHeaderKey(enc: Encoder, f: Field)
    modifies enc
    ensures enc.err == old(enc.err) && (!enc.err ==> enc.out == old(enc.out) + LeafText(enc.conf, HeaderKey(f)))
  {
    hide StringText;
    var k := Upper(f.key);
    ghost var o, a, v := enc.out, StringText(enc.conf, f.key), StringText(enc.conf, f.value);
    if k in FIELD_KEYS {
      enc.WriteString(k);
      Glue(o, k, " ", v);
    } else {
      WriteStringKey(enc, "HEADER", f.key);
      Glue("HEADER", " ", a, " " + v);
      Glue(o, "HEADER" + (" " + a), " ", v);
    }
    enc.WriteString(" ");
    enc.Write(f.value);
  }

  method WriteNumberKey(enc: Encoder, kw: string, n: nat)
    modifies enc
    ensures enc.err == old(enc.err) && (!enc.err ==> enc.out == old(enc.out) + (kw + (" " + Digits(n))))
  {
    hide Digits;
    enc.WriteString(kw);
    enc.WriteString(" ");
    enc.WriteString(Digits(n));
  }

  method WriteUidKey(enc: Encoder, u: UidSet)
    modifies enc
    ensures enc.err == (old(enc.err) || UidText(u) == "") && (!enc.err ==> enc.out == old(enc.out) + ("UID" + (" " + UidText(u))))
  {
    hide UidText;
    enc.WriteString("UID");
    enc.WriteString(" ");
    WriteNumSet(enc, UidText(u));
  }

  /** One key, after its separator. */
  method WriteLeaf(enc: Encoder, leaf: Leaf)
    modifies enc
    ensures enc.err == (old(enc.err) || !LeafEncodable(leaf)) && (!enc.err ==> enc.out == old(enc.out) + LeafText(enc.conf, leaf))
  {
    hide StringText, SetText, DateText, UidText, FlagSearchKey, Digits, FlagChars;
    match leaf
    case SeqKey(x) => WriteNumSet(enc, SetText(x));
    case UidKey(u) => WriteUidKey(enc, u);
    case DayKey(k, t) => WriteStringKey(enc, DayKeyword(k), DateText(t));
    case HeaderKey(f) => WriteHeaderKey(enc, f);
    case BodyKey(x) => WriteStringKey(enc, "BODY", x);
    case TextKey(x) => WriteStringKey(enc, "TEXT", x);
    case FlagKey(f) => WriteFlagKey(enc, "", "KEYWORD", f); assert "" + FlagSearchKey(f) == FlagSearchKey(f);
    case UnflagKey(f) => WriteFlagKey(enc, "UN", "UNKEYWORD", f);
    case LargerKey(n) => WriteNumberKey(enc, "LARGER", n);
    case SmallerKey(n) => WriteNumberKey(enc, "SMALLER", n);
  }

  /** A flag by its own key, or as a keyword. */
  method WriteFlagKey(enc: Encoder, un: string, keyword: string, f: string)
    modifies enc
    ensures enc.err == (old(enc.err) || !(FlagSearchKey(f) != "" || f == "\\*" || FlagChars(f)))
    ensures !enc.err ==>
      enc.out == old(enc.out) + if FlagSearchKey(f) != "" then un + FlagSearchKey(f) else keyword + (" " + f)
  {
    hide FlagSearchKey, FlagChars;
    var k := FlagSearchKey(f);
    if k != "" {
      enc.WriteString(un + k);
    } else {
      enc.WriteString(keyword);
      enc.WriteString(" ");
      WriteFlag(enc, f);
    }
  }

  /** What stands on the wire after these keys. */
  ghost function Printed(parts: seq<string>): (s: string) { if parts == [] then "" else Join(parts, ' ') }

  lemma PrintedSnoc(parts: seq<string>, p: string)
    ensures Printed(parts + [p]) == Printed(parts) + (if parts == [] then "" else " ") + p
  {
    if parts != [] { JoinSnoc(parts, p, ' '); } else { assert parts + [p] == [p]; }
  }

  /** encodeItem: a space in front of every key but the first. */
  method EncodeItem(enc: Encoder, firstItem: bool)
    modifies enc
    ensures enc.err == old(enc.err) && (!enc.err ==> enc.out == old(enc.out) + if firstItem then "" else " ")
  {
    if !firstItem { enc.WriteString(" "); }
  }

  /** The loops over the fields, in the order of the fields. */
  method WriteLeaves(enc: Encoder, leaves: seq<Leaf>) returns (firstItem: bool)
    modifies enc
    ensures (old(enc.err) ==> enc.err) && firstItem == (leaves == [])
    ensures !old(enc.err) && (forall i | 0 <= i < |leaves| :: LeafEncodable(leaves[i])) ==> !enc.err
    ensures !enc.err ==> enc.out == old(enc.out) + Printed(LeafTexts(enc.conf, leaves))
  {
    hide LeafText, Printed, LeafEncodable;
    firstItem := true;
    NothingPrinted(enc.conf);
    var i := 0;
    while i < |leaves|
      invariant i <= |leaves| && firstItem == (i == 0) && (old(enc.err) ==> enc.err)
      invariant !old(enc.err) && (forall k | 0 <= k < |leaves| :: LeafEncodable(leaves[k])) ==> !enc.err
      invariant !enc.err ==> enc.out == old(enc.out) + Printed(LeafTexts(enc.conf, leaves[..i]))
    {
      LeafTextsSnoc(enc.conf, leaves, i);
      EncodeItem(enc, firstItem);
      firstItem := false;
      WriteLeaf(enc, leaves[i]);
      i := i + 1;
    }
    assert leaves[..i] == leaves;
  }

  lemma NothingPrinted(e: Enc)
    ensures Printed(LeafTexts(e, [])) == ""
  {
  }

  lemma LeafTextsSnoc(e: Enc, leaves: seq<Leaf>, i: nat)
    requires i < |leaves|
    ensures Printed(LeafTexts(e, leaves[..i + 1]))
         == Printed(LeafTexts(e, leaves[..i])) + (if i == 0 then "" else " ") + LeafText(e, leaves[i])
  {
    hide LeafText, Printed;
    assert LeafTexts(e, leaves[..i + 1]) == LeafTexts(e, leaves[..i]) + [LeafText(e, leaves[i])];
    PrintedSnoc(LeafTexts(e, leaves[..i]), LeafText(e, leaves[i]));
  }

  /** A list of keys in parentheses. */
  method WriteGroup(enc: Encoder, c: Criteria)
    modifies enc
    ensures (old(enc.err) ==> enc.err) && (!enc.err ==> enc.out == old(enc.out) + ("(" + (KeyText(enc.conf, c) + ")")))
    ensures !old(enc.err) && Encodable(c) ==> !enc.err
    decreases c, 2
  {
    hide KeyText, Encodable;
    enc.WriteString("(");
    WriteSearchKey(enc, c);
    enc.WriteString(")");
  }

  method WriteNots(enc: Encoder, c: Criteria, first: bool, ghost base: string, ghost parts: seq<string>) returns (firstItem: bool)
    requires first == (parts == []) && (!enc.err ==> enc.out == base + Printed(parts))
    modifies enc
    ensures (old(enc.err) ==> enc.err) && firstItem == (parts == [] && c.not == [])
    ensures !old(enc.err) && (forall k | 0 <= k < |c.not| :: Encodable(c.not[k])) ==> !enc.err
    ensures !enc.err ==> enc.out == base + Printed(parts + NotTexts(enc.conf, c, |c.not|))
    decreases c, 0
  {
    hide KeyText, Printed, Encodable;
    firstItem := first;
    assert parts + NotTexts(enc.conf, c, 0) == parts;
    var i := 0;
    while i < |c.not|
      invariant i <= |c.not| && firstItem == (parts == [] && i == 0) && (old(enc.err) ==> enc.err)
      invariant !old(enc.err) && (forall k | 0 <= k < |c.not| :: Encodable(c.not[k])) ==> !enc.err
      invariant !enc.err ==> enc.out == base + Printed(parts + NotTexts(enc.conf, c, i))
    {
      ghost var done := parts + NotTexts(enc.conf, c, i);
      PrintedSnoc(done, "NOT" + (" " + ("(" + (KeyText(enc.conf, c.not[i]) + ")"))));
      assert parts + NotTexts(enc.conf, c, i + 1) == done + ["NOT" + (" " + ("(" + (KeyText(enc.conf, c.not[i]) + ")")))];
      EncodeItem(enc, firstItem);
      firstItem := false;
      enc.WriteString("NOT");
      enc.WriteString(" ");
      WriteGroup(enc, c.not[i]);
      i := i + 1;
    }
  }

  method WriteOr(enc: Encoder, p: Pair)
    modifies enc
    ensures old(enc.err) ==> enc.err
    ensures !old(enc.err) && Encodable(p.left) && Encodable(p.right) ==> !enc.err
    ensures !enc.err ==>
      enc.out == old(enc.out) + ("OR" + (" " + (("(" + (KeyText(enc.conf, p.left) + ")"))
                                         + (" " + ("(" + (KeyText(enc.conf, p.right) + ")"))))))
    decreases p, 0
  {
    hide KeyText, Encodable;
    ghost var o, left, right := enc.out, "(" + (KeyText(enc.conf, p.left) + ")"), "(" + (KeyText(enc.conf, p.right) + ")");
    enc.WriteString("OR");
    enc.WriteString(" ");
    WriteGroup(enc, p.left);
    enc.WriteString(" ");
    WriteGroup(enc, p.right);
    Glue(o, "OR", " ", left);
    Glue(o, "OR" + (" " + left), " ", right);
    Glue("OR", " ", left, " " + right);
  }

  method WriteOrs(enc: Encoder, c: Criteria, first: bool, ghost base: string, ghost parts: seq<string>) returns (firstItem: bool)
    requires first == (parts == []) && (!enc.err ==> enc.out == base + Printed(parts))
    modifies enc
    ensures (old(enc.err) ==> enc.err) && firstItem == (parts == [] && c.or == [])
    ensures !old(enc.err) && (forall k | 0 <= k < |c.or| :: Encodable(c.or[k].left) && Encodable(c.or[k].right)) ==> !enc.err
    ensures !enc.err ==> enc.out == base + Printed(parts + OrTexts(enc.conf, c, |c.or|))
    decreases c, 0
  {
    hide KeyText, Printed, Encodable;
    firstItem := first;
    assert parts + OrTexts(enc.conf, c, 0) == parts;
    var i := 0;
    while i < |c.or|
      invariant i <= |c.or| && firstItem == (parts == [] && i == 0) && (old(enc.err) ==> enc.err)
      invariant !old(enc.err) && (forall k | 0 <= k < |c.or| :: Encodable(c.or[k].left) && Encodable(c.or[k].right)) ==> !enc.err
      invariant !enc.err ==> enc.out == base + Printed(parts + OrTexts(enc.conf, c, i))
    {
      ghost var done := parts + OrTexts(enc.conf, c, i);
      ghost var left, right := "(" + (KeyText(enc.conf, c.or[i].left) + ")"), "(" + (KeyText(enc.conf, c.or[i].right) + ")");
      PrintedSnoc(done, "OR" + (" " + (left + (" " + right))));
      assert parts + OrTexts(enc.conf, c, i + 1) == done + ["OR" + (" " + (left + (" " + right)))];
      EncodeItem(enc, firstItem);
      firstItem := false;
      WriteOr(enc, c.or[i]);
      i := i + 1;
    }
  }

  lemma EncodableParts(c: Criteria)
    requires Encodable(c)
    ensures forall i | 0 <= i < |Leaves(c)| :: LeafEncodable(Leaves(c)[i])
    ensures forall i | 0 <= i < |c.not| :: Encodable(c.not[i])
    ensures forall i | 0 <= i < |c.or| :: Encodable(c.or[i].left) && Encodable(c.or[i].right)
  {
  }

  lemma KeyTextPrinted(e: Enc, c: Criteria)
    ensures var parts := LeafTexts(e, Leaves(c)) + NotTexts(e, c, |c.not|) + OrTexts(e, c, |c.or|);
            KeyText(e, c) == if parts == [] then "ALL" else Printed(parts)
    ensures Printed([]) == ""
  {
  }

  /** writeSearchKey: without an encoder error, the text of the criteria is what was written. */
  method WriteSearchKey(enc: Encoder, c: Criteria)
    modifies enc
    ensures (old(enc.err) ==> enc.err) && (!enc.err ==> enc.out == old(enc.out) + KeyText(enc.conf, c))
    ensures !old(enc.err) && Encodable(c) ==> !enc.err
    decreases c, 1
  {
    hide KeyText, LeafTexts, NotTexts, OrTexts, Printed, Encodable, Leaves, LeafEncodable;
    if Encodable(c) { EncodableParts(c); }
    KeyTextPrinted(enc.conf, c);
    ghost var base, parts := enc.out, LeafTexts(enc.conf, Leaves(c));
    var firstItem := WriteLeaves(enc, Leaves(c));
    firstItem := WriteNots(enc, c, firstItem, base, parts);
    firstItem := WriteOrs(enc, c, firstItem, base, parts + NotTexts(enc.conf, c, |c.not|));
    if firstItem { enc.WriteString("ALL"); }
  }

  // ---------------------------------------------------------------- reading

  method ExpectUIDSet(dec: Decoder) returns (u: UidSet, ok: bool)
    modifies dec
    ensures Same(ok, u, dec.State(), ReadUidSet(dec.conf, old(dec.State())))
    ensures dec.listDepth == old(dec.listDepth)
  {
    hide Func, ParseSet;
    u := SavedResult;
    ok := dec.AcceptByte('$');
    if ok { return; }
    var s;
    s, ok := dec.ReadFunc(KeyChars);
    if !ok { return; }
    var x := ParseSetLoop(s);
    ok := x.Some?;
    if ok { u := Uids(x.value); }
  }

  method ExpectFlag(dec: Decoder) returns (f: string, ok: bool)
    modifies dec
    ensures Same(ok, f, dec.State(), ReadFlag(dec.conf, old(dec.State())))
    ensures dec.listDepth == old(dec.listDepth)
  {
    hide Func, CanonicalFlag;
    var system := dec.AcceptByte('\\');
    f, ok := "\\*", false;
    if system {
      ok := dec.AcceptByte('*');
      if ok { return; }
    }
    var name;
    name, ok := dec.ReadFunc(AtomChars);
    if !ok { return; }
    f := CanonicalFlag(if system then "\\" + name else name);
  }

  method ExpectDate(dec: Decoder) returns (t: Date, ok: bool)
    modifies dec
    ensures Same(ok, t, dec.State(), ReadDate(dec.conf, old(dec.State())))
    ensures dec.listDepth == old(dec.listDepth)
  {
    hide AString, ParseDate;
    t := ZERO;
    var s;
    s, ok := dec.ExpectAString();
    if !ok { return; }
    var x := ParseDate(s);
    ok := x.Some?;
    if ok { t := x.value; }
  }

  method ReadTextKey(dec: Decoder, acc: Criteria, k: Keyword, key: string) returns (r: Criteria, ok: bool)
    modifies dec
    ensures Same(ok, r, dec.State(), ReadText(dec.conf, old(dec.State()), acc, k, key))
    ensures dec.listDepth == old(dec.listDepth)
  {
    hide AString, SP;
    r := acc;
    var s;
    s, ok := dec.ExpectAString();
    if !ok { return; }
    if k.KField? {
      r := acc.(header := acc.header + [Field(Title(Lower(key)), s)]);
    } else if k.KBody? {
      r := acc.(body := acc.body + [s]);
    } else if k.KText? {
      r := acc.(text := acc.text + [s]);
    } else {
      ok := dec.ExpectSP();
      if !ok { return; }
      var v;
      v, ok := dec.ExpectAString();
      if ok { r := acc.(header := acc.header + [Field(s, v)]); }
    }
  }

  method ReadArgumentKey(dec: Decoder, acc: Criteria, k: Keyword, key: string) returns (r: Criteria, ok: bool)
    modifies dec
    ensures Same(ok, r, dec.State(), ReadArgument(dec.conf, old(dec.State()), acc, k, key))
    ensures dec.listDepth == old(dec.listDepth)
  {
    hide ReadUidSet, ReadFlag, ReadDate, Number, ReadText, And, DayCriteria;
    r := acc;
    match k
    case KUid =>
      var u;
      u, ok := ExpectUIDSet(dec);
      if ok { r := acc.(uid := acc.uid + [u]); }
    case KKeyword =>
      var f;
      f, ok := ExpectFlag(dec);
      if ok { r := acc.(flag := acc.flag + [f]); }
    case KUnkeyword =>
      var f;
      f, ok := ExpectFlag(dec);
      if ok { r := acc.(notFlag := acc.notFlag + [f]); }
    case KDay(day) =>
      var t;
      t, ok := ExpectDate(dec);
      if ok { r := And(acc, DayCriteria(day, t)); }
    case KLarger =>
      var n;
      n, ok := dec.ReadNumber(MAX_INT64);
      ok := dec.Expect(ok);
      if ok { r := And(acc, EMPTY.(larger := n)); }
    case KSmaller =>
      var n;
      n, ok := dec.ReadNumber(MAX_INT64);
      ok := dec.Expect(ok);
      if ok { r := And(acc, EMPTY.(smaller := n)); }
    case _ =>
      r, ok := ReadTextKey(dec, acc, k, key);
  }

  /** readSearchKeyWithAtom. */
  method ReadSearchKeyWithAtom(dec: Decoder, acc: Criteria, atom: string) returns (r: Criteria, ok: bool)
    modifies dec
    ensures Same(ok, r, dec.State(), ReadKeyWithAtom(dec.conf, old(dec.State()), acc, atom))
    ensures dec.listDepth == old(dec.listDepth)
    decreases |dec.rest|, 2
  {
    hide ReadKey, ReadBare, ReadArgument, KeywordOf, SP;
    var key := Upper(atom);
    var k := KeywordOf(key);
    r := acc;
    if TakesNothing(k) {
      var x := ReadBare(acc, k, key);
      ok := x.Some?;
      if ok { r := x.value; }
      return;
    }
    ok := dec.ExpectSP();
    if !ok { return; }
    if k.KNot? {
      var x;
      x, ok := ReadSearchKey(dec, EMPTY);
      if ok { r := acc.(not := acc.not + [x]); }
    } else if k.KOr? {
      var left, right;
      left, ok := ReadSearchKey(dec, EMPTY);
      if !ok { return; }
      ok := dec.ExpectSP();
      if !ok { return; }
      right, ok := ReadSearchKey(dec, EMPTY);
      if ok { r := acc.(or := acc.or + [Pair(left, right)]); }
    } else {
      r, ok := ReadArgumentKey(dec, acc, k, key);
    }
  }

  lemma ReadListStep(c: Conf, d: Dec, acc: Criteria)
    ensures ReadList(c, d, acc) ==
      var r := ReadKey(c, d, acc);
      if r.No? then No(r.d)
      else if Accept(c, r.d, ')').Yes? then Yes(r.value, Accept(c, r.d, ')').d)
      else if SP(c, r.d).No? then No(SP(c, r.d).d)
      else ReadList(c, SP(c, r.d).d, r.value)
  {
  }

  /** readSearchKey: a key, or a list of keys whose loop runs over the same criteria. */
  method ReadSearchKey(dec: Decoder, acc: Criteria) returns (r: Criteria, ok: bool)
    modifies dec
    ensures Same(ok, r, dec.State(), ReadKey(dec.conf, old(dec.State()), acc))
    ensures dec.listDepth == old(dec.listDepth)
    decreases |dec.rest|, 1
  {
    hide ReadKeyWithAtom, ReadList, Func;
    r := acc;
    var key;
    key, ok := dec.ReadFunc(KeyChars);
    if ok {
      r, ok := ReadSearchKeyWithAtom(dec, acc, key);
      return;
    }
    ok := dec.AcceptByte('(');
    ok := dec.Expect(ok);
    if !ok { return; }
    ok := dec.AcceptByte(')');
    if ok { return; }
    if dec.listDepth + 1 >= MAX_LIST_DEPTH { return r, false; }
    dec.listDepth := dec.listDepth + 1;
    r, ok := ReadKeyList(dec, acc);
    dec.listDepth := dec.listDepth - 1;
  }

  /** The loop of Decoder.List over readSearchKey. */
  method ReadKeyList(dec: Decoder, acc: Criteria) returns (r: Criteria, ok: bool)
    modifies dec
    ensures Same(ok, r, dec.State(), ReadList(dec.conf, old(dec.State()), acc))
    ensures dec.listDepth == old(dec.listDepth)
    decreases |dec.rest|, 3
  {
    hide ReadKey, ReadList, SP;
    ghost var d := dec.State();
    r := acc;
    while true
      invariant |dec.rest| <= |d.rest| && dec.listDepth == d.depth && ReadList(dec.conf, dec.State(), r) == ReadList(dec.conf, d, acc)
      decreases |dec.rest|
    {
      ReadListStep(dec.conf, dec.State(), r);
      r, ok := ReadSearchKey(dec, r);
      if !ok { return; }
      ok := dec.AcceptByte(')');
      if ok { return; }
      ok := dec.ExpectSP();
      if !ok { return; }
    }
  }

  /** The key loop of handleSearch. */
  method ReadSearchKeys(dec: Decoder) returns (r: Criteria, ok: bool)
    modifies dec
    ensures Same(ok, r, dec.State(), ReadKeys(dec.conf, old(dec.State()), EMPTY))
    ensures dec.listDepth == old(dec.listDepth)
  {
    hide ReadKey, SP;
    ghost var d := dec.State();
    r := EMPTY;
    while true
      invariant dec.listDepth == d.depth && ReadKeys(dec.conf, dec.State(), r) == ReadKeys(dec.conf, d, EMPTY)
      decreases |dec.rest|
    {
      r, ok := ReadSearchKey(dec, r);
      if !ok { return; }
      var more := dec.ReadSP();
      if !more { return r, true; }
    }
  }
}
