/** Reading body structures.

    readBody of imapclient/fetch.go at work on a decoder, proved against ReadBody: the same
    result, failure included, and the same input left. */
module BodyReader {
  import opened Text
  import opened Wire
  import opened WireCodec
  import opened BodyParams
  import opened Envelope
  import opened BodyStructure

  // ---------------------------------------------------------------- lists of strings

  lemma ItemsStep(c: Conf, l: seq<string>, d: Dec)
    ensures var s := String(c, d);
      After(l, ReadItems(c, d)) ==
      if s.No? then No(s.d)
      else if Accept(c, s.d, ')').Yes? then Yes(l + [s.value], Accept(c, s.d, ')').d)
      else if SP(c, s.d).No? then No(SP(c, s.d).d)
      else After(l + [s.value], ReadItems(c, SP(c, s.d).d))
  {
    var s := String(c, d);
    if s.Yes? && SP(c, s.d).Yes? { AfterConcat(l, [s.value], ReadItems(c, SP(c, s.d).d)); }
  }

  /** Decoder.List over ExpectString, after the opening parenthesis. */
  method ExpectOpenList(dec: Decoder) returns (l: seq<string>, ok: bool)
    modifies dec
    ensures Same(ok, l, dec.State(), ReadOpenList(dec.conf, old(dec.State())))
    ensures dec.listDepth == old(dec.listDepth)
  {
    hide String, SP, ReadItems, After;
    l := [];
    ok := dec.AcceptByte(')');
    if ok { return; }
    if dec.listDepth + 1 >= MAX_LIST_DEPTH { return; }
    ghost var d := dec.State();
    AfterConcat([], [], ReadItems(dec.conf, d));
    while true
      invariant dec.listDepth == d.depth && After(l, ReadItems(dec.conf, dec.State())) == ReadItems(dec.conf, d)
      decreases |dec.rest|
    {
      ItemsStep(dec.conf, l, dec.State());
      var s;
      s, ok := dec.ExpectString();
      if !ok { return; }
      l := l + [s];
      ok := dec.AcceptByte(')');
      if ok { return; }
      ok := dec.ExpectSP();
      if !ok { return; }
    }
  }

  method ExpectNList(dec: Decoder) returns (l: seq<string>, ok: bool)
    modifies dec
    ensures Same(ok, l, dec.State(), ReadNList(dec.conf, old(dec.State())))
    ensures dec.listDepth == old(dec.listDepth)
  {
    hide Func, ReadOpenList;
    l := [];
    var s;
    s, ok := dec.ReadFunc(AtomChars);
    if ok { return [], s == "NIL"; }
    ok := dec.AcceptByte('(');
    ok := dec.Expect(ok);
    if ok { l, ok := ExpectOpenList(dec); }
  }

  /** readBodyFldLang. */
  method ExpectLang(dec: Decoder) returns (l: seq<string>, ok: bool)
    modifies dec
    ensures Same(ok, l, dec.State(), ReadLang(dec.conf, old(dec.State())))
    ensures dec.listDepth == old(dec.listDepth)
  {
    hide NString, ReadOpenList;
    l := [];
    ok := dec.AcceptByte('(');
    if ok {
      l, ok := ExpectOpenList(dec);
    } else {
      var s;
      s, ok := dec.ExpectNString();
      if ok && s != "" { l := [s]; }
    }
  }

  /** readBodyFldParam: the strings paired up as the list callback does. */
  method ExpectParams(dec: Decoder) returns (p: Params, ok: bool)
    modifies dec
    ensures Same(ok, p, dec.State(), ReadParams(dec.conf, old(dec.State())))
    ensures dec.listDepth == old(dec.listDepth)
  {
    hide ReadNList;
    p := map[];
    var l;
    l, ok := ExpectNList(dec);
    if !ok { return; }
    var r := PairUp(dec.conf, l);
    ok := r.Some?;
    if ok { p := r.value; }
  }

  method PairUp(c: Conf, l: seq<string>) returns (r: Option<Params>)
    ensures r == Pairs(c, l, "", map[])
  {
    hide DecodedWord;
    var key, params: Params, i := "", map[], 0;
    assert l[0..] == l;
    while i < |l|
      invariant i <= |l| && Pairs(c, l[i..], key, params) == Pairs(c, l, "", map[])
    {
      assert l[i..][1..] == l[i + 1..];
      if key == "" {
        key := l[i];
      } else {
        params := params[Lower(key) := DecodedWord(c, l[i])];
        key := "";
      }
      i := i + 1;
    }
    r := if key == "" then Some(params) else None;
  }

  // ---------------------------------------------------------------- envelopes

  lemma FieldsStep(c: Conf, l: seq<string>, d: Dec, n: nat)
    requires n > 0
    ensures var s := NString(c, d);
      After(l, ReadFields(c, d, n)) ==
      if s.No? then No(s.d)
      else if n == 1 then Yes(l + [s.value], s.d)
      else if SP(c, s.d).No? then No(SP(c, s.d).d)
      else After(l + [s.value], ReadFields(c, SP(c, s.d).d, n - 1))
  {
    var s := NString(c, d);
    if s.Yes? && n > 1 && SP(c, s.d).Yes? { AfterConcat(l, [s.value], ReadFields(c, SP(c, s.d).d, n - 1)); }
  }

  method ExpectFields(dec: Decoder, n: nat) returns (l: seq<string>, ok: bool)
    requires n > 0
    modifies dec
    ensures Same(ok, l, dec.State(), ReadFields(dec.conf, old(dec.State()), n))
    ensures dec.listDepth == old(dec.listDepth)
  {
    hide NString, SP, ReadFields, After;
    l := [];
    ghost var d := dec.State();
    var left := n;
    AfterConcat([], [], ReadFields(dec.conf, d, n));
    while true
      invariant left > 0 && dec.listDepth == d.depth
      invariant After(l, ReadFields(dec.conf, dec.State(), left)) == ReadFields(dec.conf, d, n)
      decreases left
    {
      FieldsStep(dec.conf, l, dec.State(), left);
      var s;
      s, ok := dec.ExpectNString();
      if !ok { return; }
      l := l + [s];
      if left == 1 { return; }
      ok := dec.ExpectSP();
      if !ok { return; }
      left := left - 1;
    }
  }

  /** readAddress. */
  method ExpectAddress(dec: Decoder) returns (a: Address, ok: bool)
    modifies dec
    ensures Same(ok, a, dec.State(), ReadAddress(dec.conf, old(dec.State())))
    ensures dec.listDepth == old(dec.listDepth)
  {
    hide ReadFields;
    a := Address("", "", "");
    ok := dec.AcceptByte('(');
    ok := dec.Expect(ok);
    if !ok { return; }
    var l;
    l, ok := ExpectFields(dec, 4);
    if !ok { return; }
    ok := dec.AcceptByte(')');
    ok := dec.Expect(ok);
    if ok { a := Address(DecodedWord(dec.conf, l[0]), l[2], l[3]); }
  }

  lemma AddressesStep(c: Conf, l: seq<Address>, d: Dec)
    ensures var s := ReadAddress(c, d);
      After(l, ReadAddresses(c, d)) ==
      if s.No? then No(s.d)
      else if Accept(c, s.d, ')').Yes? then Yes(l + [s.value], Accept(c, s.d, ')').d)
      else if SP(c, s.d).No? then No(SP(c, s.d).d)
      else After(l + [s.value], ReadAddresses(c, SP(c, s.d).d))
  {
    var s := ReadAddress(c, d);
    if s.Yes? && SP(c, s.d).Yes? { AfterConcat(l, [s.value], ReadAddresses(c, SP(c, s.d).d)); }
  }

  method ExpectAddresses(dec: Decoder) returns (l: seq<Address>, ok: bool)
    modifies dec
    ensures Same(ok, l, dec.State(), ReadAddresses(dec.conf, old(dec.State())))
    ensures dec.listDepth == old(dec.listDepth)
  {
    hide ReadAddress, SP, ReadAddresses, After;
    l := [];
    ghost var d := dec.State();
    AfterConcat([], [], ReadAddresses(dec.conf, d));
    while true
      invariant dec.listDepth == d.depth && After(l, ReadAddresses(dec.conf, dec.State())) == ReadAddresses(dec.conf, d)
      decreases |dec.rest|
    {
      AddressesStep(dec.conf, l, dec.State());
      var a;
      a, ok := ExpectAddress(dec);
      if !ok { return; }
      l := l + [a];
      ok := dec.AcceptByte(')');
      if ok { return; }
      ok := dec.ExpectSP();
      if !ok { return; }
    }
  }

  /** readAddressList. */
  method ExpectAddressList(dec: Decoder) returns (l: seq<Address>, ok: bool)
    modifies dec
    ensures Same(ok, l, dec.State(), ReadAddressList(dec.conf, old(dec.State())))
    ensures dec.listDepth == old(dec.listDepth)
  {
    hide Func, ReadAddresses;
    l := [];
    var s;
    s, ok := dec.ReadFunc(AtomChars);
    if ok { return [], s == "NIL"; }
    ok := dec.AcceptByte('(');
    ok := dec.Expect(ok);
    if !ok { return; }
    ok := dec.AcceptByte(')');
    if ok { return; }
    if dec.listDepth + 1 >= MAX_LIST_DEPTH { return; }
    l, ok := ExpectAddresses(dec);
  }

  lemma ListsStep(c: Conf, l: seq<seq<Address>>, d: Dec, n: nat)
    requires n > 0
    ensures var s := ReadAddressList(c, d);
      After(l, ReadLists(c, d, n)) ==
      if s.No? then No(s.d)
      else if SP(c, s.d).No? then No(SP(c, s.d).d)
      else After(l + [s.value], ReadLists(c, SP(c, s.d).d, n - 1))
  {
    var s := ReadAddressList(c, d);
    if s.Yes? && SP(c, s.d).Yes? { AfterConcat(l, [s.value], ReadLists(c, SP(c, s.d).d, n - 1)); }
  }

  method ExpectLists(dec: Decoder, n: nat) returns (l: seq<seq<Address>>, ok: bool)
    modifies dec
    ensures Same(ok, l, dec.State(), ReadLists(dec.conf, old(dec.State()), n))
    ensures dec.listDepth == old(dec.listDepth)
  {
    hide ReadAddressList, SP, ReadLists, After;
    l := [];
    ghost var d := dec.State();
    AfterConcat([], [], ReadLists(dec.conf, d, n));
    var left := n;
    while left > 0
      invariant left >= 0 && dec.listDepth == d.depth
      invariant After(l, ReadLists(dec.conf, dec.State(), left)) == ReadLists(dec.conf, d, n)
      decreases left
    {
      ListsStep(dec.conf, l, dec.State(), left);
      var a;
      a, ok := ExpectAddressList(dec);
      if !ok { return; }
      ok := dec.ExpectSP();
      if !ok { return; }
      l := l + [a];
      left := left - 1;
    }
    NoListsLeft(dec.conf, l, dec.State());
    ok := true;
  }

  lemma NoListsLeft(c: Conf, l: seq<seq<Address>>, d: Dec)
    ensures After(l, ReadLists(c, d, 0)) == Yes(l, d)
  {
    assert l + [] == l;
  }

  const NO_ENVELOPE: Envelope := Envelope("", "", [], None, None, [], [], [], "", "")

  /** readEnvelope. */
  method ExpectEnvelope(dec: Decoder) returns (v: Envelope, ok: bool)
    modifies dec
    ensures Same(ok, v, dec.State(), ReadEnvelope(dec.conf, old(dec.State())))
    ensures dec.listDepth == old(dec.listDepth)
  {
    hide ReadFields, ReadLists, SP;
    v := NO_ENVELOPE;
    ok := dec.AcceptByte('(');
    ok := dec.Expect(ok);
    if !ok { return; }
    var a, ls, b;
    a, ok := ExpectFields(dec, 2);
    if !ok { return; }
    ok := dec.ExpectSP();
    if !ok { return; }
    ls, ok := ExpectLists(dec, 6);
    if !ok { return; }
    b, ok := ExpectFields(dec, 2);
    if !ok { return; }
    ok := dec.AcceptByte(')');
    ok := dec.Expect(ok);
    if ok { v := FromLists(a[0], DecodedWord(dec.conf, a[1]), ls, b[0], b[1]); }
  }

  // ---------------------------------------------------------------- skipping

  /** DiscardValue: a string, a list of values or an atom. */
  method DiscardValue(dec: Decoder) returns (v: bool, ok: bool)
    modifies dec
    ensures Same(ok, v, dec.State(), Discard(dec.conf, old(dec.State())))
    ensures dec.listDepth == old(dec.listDepth)
    decreases |dec.rest|, 0
  {
    hide String, Func, DiscardItems;
    v := true;
    var s;
    s, ok := dec.ReadString();
    if ok { return; }
    ok := dec.AcceptByte('(');
    if ok {
      ok := dec.AcceptByte(')');
      if ok { return; }
      if dec.listDepth + 1 >= MAX_LIST_DEPTH { return false, true; }
      dec.listDepth := dec.listDepth + 1;
      ok := DiscardList(dec);
      dec.listDepth := dec.listDepth - 1;
    } else {
      s, ok := dec.ReadFunc(AtomChars);
      ok := dec.Expect(ok);
    }
  }

  lemma DiscardStep(c: Conf, d: Dec)
    ensures var v := Discard(c, d);
      DiscardItems(c, d) ==
      if v.No? then No(v.d)
      else if Accept(c, v.d, ')').Yes? then Accept(c, v.d, ')')
      else if SP(c, v.d).No? then No(SP(c, v.d).d)
      else DiscardItems(c, SP(c, v.d).d)
  {
  }

  method DiscardList(dec: Decoder) returns (ok: bool)
    modifies dec
    ensures Same(ok, (), dec.State(), DiscardItems(dec.conf, old(dec.State())))
    ensures dec.listDepth == old(dec.listDepth)
    decreases |dec.rest|, 1
  {
    hide Discard, DiscardItems, SP;
    ghost var d := dec.State();
    while true
      invariant dec.listDepth == d.depth && |dec.rest| <= |d.rest| && DiscardItems(dec.conf, dec.State()) == DiscardItems(dec.conf, d)
      decreases |dec.rest|
    {
      DiscardStep(dec.conf, dec.State());
      var v;
      v, ok := DiscardValue(dec);
      if !ok { return; }
      ok := dec.AcceptByte(')');
      if ok { return; }
      ok := dec.ExpectSP();
      if !ok { return; }
    }
  }

  lemma SkipStep(c: Conf, d: Dec)
    ensures SkipRest(c, d) ==
      var sp := SP(c, d);
      if sp.No? then Yes((), sp.d)
      else
        var v := Discard(c, sp.d);
        if v.No? || !v.value then No(v.d) else SkipRest(c, v.d)
  {
  }

  /** The loop of readBody over values it does not know. */
  method SkipValues(dec: Decoder) returns (ok: bool)
    modifies dec
    ensures Same(ok, (), dec.State(), SkipRest(dec.conf, old(dec.State())))
    ensures dec.listDepth == old(dec.listDepth)
  {
    hide Discard, SP, SkipRest;
    ghost var d := dec.State();
    while true
      invariant dec.listDepth == d.depth && SkipRest(dec.conf, dec.State()) == SkipRest(dec.conf, d)
      decreases |dec.rest|
    {
      SkipStep(dec.conf, dec.State());
      var more := dec.ReadSP();
      if !more { return true; }
      var v;
      v, ok := DiscardValue(dec);
      if !ok || !v { return false; }
    }
  }

  // ---------------------------------------------------------------- extension data

  /** readBodyFldDsp. */
  method ExpectDsp(dec: Decoder) returns (v: Option<Disposition>, ok: bool)
    modifies dec
    ensures Same(ok, v, dec.State(), ReadDsp(dec.conf, old(dec.State())))
    ensures dec.listDepth == old(dec.listDepth)
  {
    hide Func, String, SP, ReadParams;
    v := None;
    var s, p;
    ok := dec.AcceptByte('(');
    if !ok {
      s, ok := dec.ReadFunc(AtomChars);
      ok := dec.Expect(ok && s == "NIL");
      return;
    }
    s, ok := dec.ExpectString();
    if !ok { return; }
    ok := dec.ExpectSP();
    if !ok { return; }
    p, ok := ExpectParams(dec);
    if !ok { return; }
    ok := dec.AcceptByte(')');
    ok := dec.Expect(ok);
    if ok { v := Some(Disposition(s, p)); }
  }

  /** The end of readBodyExt1part and readBodyExtMpart. */
  method ExpectTail(dec: Decoder) returns (x: Ext, ok: bool)
    modifies dec
    ensures Same(ok, x, dec.State(), ReadTail(dec.conf, old(dec.State())))
    ensures dec.listDepth == old(dec.listDepth)
  {
    hide SP, ReadDsp, ReadLang, NString;
    x := Ext(None, [], "");
    var more := dec.ReadSP();
    if !more { return x, true; }
    var v, l, s;
    v, ok := ExpectDsp(dec);
    if !ok { return; }
    x := x.(disposition := v);
    more := dec.ReadSP();
    if !more { return x, true; }
    l, ok := ExpectLang(dec);
    if !ok { return; }
    x := x.(language := l);
    more := dec.ReadSP();
    if !more { return x, true; }
    s, ok := dec.ExpectNString();
    if ok { x := x.(location := s); }
  }

  /** readBodyExt1part. */
  method ExpectSingleExt(dec: Decoder) returns (x: Ext, ok: bool)
    modifies dec
    ensures Same(ok, x, dec.State(), ReadSingleExt(dec.conf, old(dec.State())))
    ensures dec.listDepth == old(dec.listDepth)
  {
    hide NString, ReadTail;
    x := Ext(None, [], "");
    var md5;
    md5, ok := dec.ExpectNString();
    if ok { x, ok := ExpectTail(dec); }
  }

  /** readBodyExtMpart. */
  method ExpectMultiExt(dec: Decoder) returns (x: MultiExt, ok: bool)
    modifies dec
    ensures Same(ok, x, dec.State(), ReadMultiExt(dec.conf, old(dec.State())))
    ensures dec.listDepth == old(dec.listDepth)
  {
    hide ReadParams, ReadTail;
    x := MultiExt(map[], Ext(None, [], ""));
    var p, tail;
    p, ok := ExpectParams(dec);
    if !ok { return; }
    tail, ok := ExpectTail(dec);
    if ok { x := MultiExt(p, tail); }
  }

  // ---------------------------------------------------------------- single parts

  const NO_BODY: Body := Single("", "", map[], "", "", "", 0, None, None, None)

  /** ExpectBodyFldOctets. */
  method ExpectOctets(dec: Decoder) returns (n: nat, ok: bool)
    modifies dec
    ensures Same(ok, n, dec.State(), ReadOctets(dec.conf, old(dec.State())))
    ensures dec.listDepth == old(dec.listDepth)
  {
    hide Number;
    n := 0;
    ok := dec.AcceptByte('-');
    if ok {
      ok := dec.AcceptByte('1');
      ok := dec.Expect(ok);
    } else {
      n, ok := dec.ReadNumber(MAX_UINT32);
      ok := dec.Expect(ok);
    }
  }

  method ExpectBasic(dec: Decoder, typ: string) returns (b: Body, ok: bool)
    modifies dec
    ensures Same(ok, b, dec.State(), ReadBasic(dec.conf, old(dec.State()), typ))
    ensures dec.listDepth == old(dec.listDepth) && b.Single?
  {
    hide String, SP, ReadParams, ReadFields, ReadOctets;
    b := NO_BODY;
    var subtype, params, l, n;
    subtype, ok := dec.ExpectString();
    if !ok { return; }
    ok := dec.ExpectSP();
    if !ok { return; }
    params, ok := ExpectParams(dec);
    if !ok { return; }
    ok := dec.ExpectSP();
    if !ok { return; }
    l, ok := ExpectFields(dec, 3);
    if !ok { return; }
    ok := dec.ExpectSP();
    if !ok { return; }
    n, ok := ExpectOctets(dec);
    if !ok { return; }
    var encoding := if l[2] == "" then "7bit" else l[2];
    b := Single(typ, subtype, params, l[0], DecodedWord(dec.conf, l[1]), encoding, n, None, None, None);
  }

  method ExpectMessage(dec: Decoder) returns (m: Message, ok: bool)
    modifies dec
    ensures Same(ok, m, dec.State(), ReadMessage(dec.conf, old(dec.State())))
    ensures dec.listDepth == old(dec.listDepth)
    decreases |dec.rest|, 1
  {
    hide ReadEnvelope, SP, ReadBody, Number;
    m := Message(NO_ENVELOPE, NO_BODY, 0);
    var v, b, n;
    v, ok := ExpectEnvelope(dec);
    if !ok { return; }
    ok := dec.ExpectSP();
    if !ok { return; }
    b, ok := ExpectBody(dec);
    if !ok { return; }
    ok := dec.ExpectSP();
    if !ok { return; }
    n, ok := dec.ReadNumber(MAX_INT64);
    ok := dec.Expect(ok);
    if ok { m := Message(v, b, n); }
  }

  method ExpectSpacedExt(dec: Decoder, b: Body) returns (r: Body, ok: bool)
    requires b.Single?
    modifies dec
    ensures Same(ok, r, dec.State(), ReadSpacedExt(dec.conf, old(dec.State()), b))
    ensures dec.listDepth == old(dec.listDepth)
  {
    hide SP, ReadSingleExt;
    r := b;
    var more := dec.ReadSP();
    if !more { return r, true; }
    var x;
    x, ok := ExpectSingleExt(dec);
    if ok { r := b.(ext := Some(x)); }
  }

  method ExpectKind(dec: Decoder, b: Body) returns (r: Body, ok: bool)
    requires b.Single?
    modifies dec
    ensures Same(ok, r, dec.State(), ReadKind(dec.conf, old(dec.State()), b))
    ensures dec.listDepth == old(dec.listDepth)
    decreases |dec.rest|, 2
  {
    hide ReadMessage, Number, IsMessage;
    r := b;
    if IsMessage(b.typ, b.subtype) {
      var m;
      m, ok := ExpectMessage(dec);
      if ok { r := b.(message := Some(m)); }
    } else {
      var n;
      n, ok := dec.ReadNumber(MAX_INT64);
      ok := dec.Expect(ok);
      if ok { r := b.(text := Some(n)); }
    }
  }

  /** readBodyType1part. */
  method ExpectSingle(dec: Decoder, typ: string) returns (r: Body, ok: bool)
    modifies dec
    ensures Same(ok, r, dec.State(), ReadSingle(dec.conf, old(dec.State()), typ))
    ensures dec.listDepth == old(dec.listDepth)
    decreases |dec.rest|, 3
  {
    hide SP, ReadBasic, ReadKind, ReadSpacedExt, IsMessage, IsText;
    r := NO_BODY;
    ok := dec.ExpectSP();
    if !ok { return; }
    r, ok := ExpectBasic(dec, typ);
    if !ok { return; }
    if IsMessage(r.typ, r.subtype) || IsText(r.typ) {
      var more := dec.ReadSP();
      if !more { return r, true; }
      r, ok := ExpectKind(dec, r);
      if !ok { return; }
    }
    r, ok := ExpectSpacedExt(dec, r);
  }

  // ---------------------------------------------------------------- trees

  /** A list of parts and the subtype behind it, with more parts in front. */
  ghost function AfterParts(l: seq<Body>, r: Res<(seq<Body>, string)>): (q: Res<(seq<Body>, string)>) {
    if r.No? then r else Yes((l + r.value.0, r.value.1), r.d)
  }

  lemma ChildrenStep(c: Conf, l: seq<Body>, d: Dec)
    ensures var b := ReadBody(c, d);
      AfterParts(l, ReadChildren(c, d)) ==
      if b.No? then No(b.d)
      else
        var sp := SP(c, b.d);
        var s := if sp.Yes? then String(c, sp.d) else No(sp.d);
        if s.Yes? then Yes((l + [b.value], s.value), s.d) else AfterParts(l + [b.value], ReadChildren(c, s.d))
  {
    hide ReadBody, String, SP;
    var b := ReadBody(c, d);
    if b.Yes? {
      var sp := SP(c, b.d);
      var s := if sp.Yes? then String(c, sp.d) else No(sp.d);
      if s.No? && ReadChildren(c, s.d).Yes? {
        Append(l, b.value, ReadChildren(c, s.d).value.0);
      }
    }
  }

  lemma Append(l: seq<Body>, b: Body, r: seq<Body>)
    ensures l + ([b] + r) == l + [b] + r
  {
  }

  /** The loop of readBodyTypeMpart. */
  method ExpectChildren(dec: Decoder) returns (l: seq<Body>, subtype: string, ok: bool)
    modifies dec
    ensures Same(ok, (l, subtype), dec.State(), ReadChildren(dec.conf, old(dec.State())))
    ensures dec.listDepth == old(dec.listDepth)
    decreases |dec.rest|, 1
  {
    hide ReadBody, ReadChildren, SP, String, AfterParts;
    l, subtype := [], "";
    ghost var d := dec.State();
    NoPartsYet(ReadChildren(dec.conf, d));
    while true
      invariant dec.listDepth == d.depth && |dec.rest| <= |d.rest|
      invariant AfterParts(l, ReadChildren(dec.conf, dec.State())) == ReadChildren(dec.conf, d)
      decreases |dec.rest|
    {
      ChildrenStep(dec.conf, l, dec.State());
      var b;
      b, ok := ExpectBody(dec);
      if !ok { return; }
      l := l + [b];
      var sp := dec.ReadSP();
      if sp {
        subtype, ok := dec.ReadString();
        if ok { return; }
      }
    }
  }

  lemma NoPartsYet(r: Res<(seq<Body>, string)>)
    ensures AfterParts([], r) == r
  {
    if r.Yes? { assert [] + r.value.0 == r.value.0; }
  }

  /** readBodyTypeMpart. */
  method ExpectMulti(dec: Decoder) returns (r: Body, ok: bool)
    modifies dec
    ensures Same(ok, r, dec.State(), ReadMulti(dec.conf, old(dec.State())))
    ensures dec.listDepth == old(dec.listDepth)
    decreases |dec.rest|, 2
  {
    hide ReadChildren, SP, ReadMultiExt;
    r := NO_BODY;
    var l, subtype;
    l, subtype, ok := ExpectChildren(dec);
    if !ok { return; }
    r := Multi(l, subtype, None);
    var more := dec.ReadSP();
    if !more { return r, true; }
    var x;
    x, ok := ExpectMultiExt(dec);
    if ok { r := r.(multiExt := Some(x)); }
  }

  /** readBody. */
  method ExpectBody(dec: Decoder) returns (r: Body, ok: bool)
    modifies dec
    ensures Same(ok, r, dec.State(), ReadBody(dec.conf, old(dec.State())))
    ensures dec.listDepth == old(dec.listDepth)
    decreases |dec.rest|, 0
  {
    hide String, ReadSingle, ReadMulti, SkipRest;
    r := NO_BODY;
    ok := dec.AcceptByte('(');
    ok := dec.Expect(ok);
    if !ok { return; }
    var typ;
    typ, ok := dec.ReadString();
    if ok { r, ok := ExpectSingle(dec, typ); } else { r, ok := ExpectMulti(dec); }
    if !ok { return; }
    ok := SkipValues(dec);
    if !ok { return; }
    ok := dec.AcceptByte(')');
    ok := dec.Expect(ok);
  }
}
