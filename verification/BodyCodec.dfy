/** Writing body structures.

    The writer of imapserver/fetch.go at work on an encoder, proved against BodyText: without an
    encoder error, the text of the tree is what was appended. */
module BodyCodec {
  import opened Text
  import opened Wire
  import opened WireCodec
  import opened BodyParams
  import opened Envelope
  import opened BodyStructure

  // ---------------------------------------------------------------- writing

  /** Encoder.List over strings that are not none. */
  method WriteItems(enc: Encoder, l: seq<string>)
    requires l != []
    modifies enc
    ensures enc.err == old(enc.err) && (!enc.err ==> enc.out == old(enc.out) + ("(" + ItemsText(enc.conf, l)))
  {
    hide StringText;
    enc.WriteString("(");
    var i := 0;
    ghost var text := ItemsText(enc.conf, l);
    assert l[0..] == l;
    while i < |l|
      invariant i <= |l| && enc.err == old(enc.err)
      invariant !enc.err ==> Left(enc.conf, enc.out, l, i) == old(enc.out) + ("(" + text)
    {
      LeftStep(enc.conf, enc.out, l, i);
      if i > 0 { enc.WriteString(" "); }
      enc.Write(l[i]);
      i := i + 1;
    }
    enc.WriteString(")");
  }

  /** What the output will be once the items from the i-th on are written. */
  ghost function Left(e: Enc, out: string, l: seq<string>, i: nat): (r: string)
    requires l != [] && i <= |l|
  {
    if i == |l| then out + ")" else out + (if i == 0 then "" else " ") + ItemsText(e, l[i..])
  }

  lemma LeftStep(e: Enc, out: string, l: seq<string>, i: nat)
    requires i < |l|
    ensures Left(e, out, l, i) == Left(e, out + (if i == 0 then "" else " ") + StringText(e, l[i]), l, i + 1)
  {
    hide StringText;
    assert l[i..][1..] == l[i + 1..];
  }

  method WriteList(enc: Encoder, l: seq<string>)
    modifies enc
    ensures enc.err == old(enc.err) && (!enc.err ==> enc.out == old(enc.out) + ListText(enc.conf, l))
  {
    hide ItemsText;
    if |l| == 0 { enc.WriteString("NIL"); } else { WriteItems(enc, l); }
  }

  lemma LeastFirst(ks: set<string>, k: string)
    requires IsLeast(k, ks)
    ensures SortedKeys(ks) == [k] + SortedKeys(ks - {k})
  {
    LeqOrder(k, LeastOf(ks), k);
  }

  lemma KeysStep(l: seq<string>, ks: set<string>, k: string)
    requires IsLeast(k, ks)
    ensures l + SortedKeys(ks) == l + [k] + SortedKeys(ks - {k})
  {
    hide IsLeast, SortedKeys;
    LeastFirst(ks, k);
  }

  method FirstKey(ks: set<string>) returns (k: string)
    requires ks != {}
    ensures k in ks && IsLeast(k, ks)
  {
    ghost var least := LeastExists(ks);
    k :| k in ks && forall j | j in ks :: Leq(k, j);
  }

  /** The keys of a map, collected and sorted. */
  method Keys(p: Params) returns (l: seq<string>)
    ensures l == SortedKeys(p.Keys)
  {
    hide SortedKeys, IsLeast;
    var ks := p.Keys;
    l := [];
    while ks != {}
      invariant l + SortedKeys(ks) == SortedKeys(p.Keys)
      decreases |ks|
    {
      var k := FirstKey(ks);
      KeysStep(l, ks, k);
      l := l + [k];
      ks := ks - {k};
    }
    NoKeys();
  }

  lemma NoKeys()
    ensures SortedKeys({}) == []
  {
  }

  /** writeBodyFldParam. */
  method WriteParams(enc: Encoder, p: Params)
    modifies enc
    ensures enc.err == old(enc.err) && (!enc.err ==> enc.out == old(enc.out) + ParamsText(enc.conf, p))
  {
    hide ListText, SortedKeys;
    var l := Keys(p);
    WriteList(enc, Flat(l, p));
  }

  /** writeBodyFldDsp. */
  method WriteDsp(enc: Encoder, v: Option<Disposition>)
    modifies enc
    ensures enc.err == old(enc.err) && (!enc.err ==> enc.out == old(enc.out) + DspText(enc.conf, v))
  {
    hide StringText, ParamsText;
    match v
    case None => enc.WriteString("NIL");
    case Some(x) =>
      ghost var o := enc.out;
      enc.WriteString("(");
      enc.Write(x.value);
      enc.WriteString(" ");
      WriteParams(enc, x.params);
      enc.WriteString(")");
      Chain4(o, "(", StringText(enc.conf, x.value), " ", ParamsText(enc.conf, x.params) + ")");
      Assoc(o + "(" + StringText(enc.conf, x.value) + " ", ParamsText(enc.conf, x.params), ")");
  }

  method WriteTail(enc: Encoder, x: Ext)
    modifies enc
    ensures enc.err == old(enc.err) && (!enc.err ==> enc.out == old(enc.out) + TailText(enc.conf, x))
  {
    hide DspText, ListText, NStringText;
    ghost var o := enc.out;
    enc.WriteString(" ");
    WriteDsp(enc, x.disposition);
    enc.WriteString(" ");
    WriteList(enc, x.language);
    enc.WriteString(" ");
    enc.WriteNString(x.location);
    Chain6(o, " ", DspText(enc.conf, x.disposition), " ", ListText(enc.conf, x.language), " ", NStringText(enc.conf, x.location));
  }

  // ---------------------------------------------------------------- envelopes

  /** Fields that may be NIL, with spaces in between. */
  method WriteFields(enc: Encoder, l: seq<string>)
    requires l != []
    modifies enc
    ensures enc.err == old(enc.err) && (!enc.err ==> enc.out == old(enc.out) + FieldsText(enc.conf, l))
    decreases |l|
  {
    hide NStringText;
    ghost var o := enc.out;
    enc.WriteNString(l[0]);
    if |l| > 1 {
      enc.WriteString(" ");
      WriteFields(enc, l[1..]);
      Assoc(o + NStringText(enc.conf, l[0]), " ", FieldsText(enc.conf, l[1..]));
      Assoc(o, NStringText(enc.conf, l[0]), " " + FieldsText(enc.conf, l[1..]));
    } else {
      assert NStringText(enc.conf, l[0]) + "" == NStringText(enc.conf, l[0]);
    }
  }

  method WriteAddress(enc: Encoder, a: Address)
    modifies enc
    ensures enc.err == old(enc.err) && (!enc.err ==> enc.out == old(enc.out) + AddressText(enc.conf, a))
  {
    hide FieldsText;
    ghost var o := enc.out;
    enc.WriteString("(");
    WriteFields(enc, AddressFields(enc.conf, a));
    enc.WriteString(")");
    Assoc(o + "(", FieldsText(enc.conf, AddressFields(enc.conf, a)), ")");
    Assoc(o, "(", FieldsText(enc.conf, AddressFields(enc.conf, a)) + ")");
  }

  /** What the output will be once the addresses from the i-th on are written. */
  ghost function AddressesLeft(e: Enc, out: string, l: seq<Address>, i: nat): (r: string)
    requires l != [] && i <= |l|
  {
    if i == |l| then out + ")" else out + (if i == 0 then "" else " ") + AddressesText(e, l[i..])
  }

  lemma AddressesLeftStep(e: Enc, out: string, l: seq<Address>, i: nat)
    requires i < |l|
    ensures AddressesLeft(e, out, l, i) == AddressesLeft(e, out + (if i == 0 then "" else " ") + AddressText(e, l[i]), l, i + 1)
  {
    hide AddressText;
    assert l[i..][1..] == l[i + 1..];
  }

  /** writeAddressList. */
  method WriteAddressList(enc: Encoder, l: seq<Address>)
    modifies enc
    ensures enc.err == old(enc.err) && (!enc.err ==> enc.out == old(enc.out) + AddressListText(enc.conf, l))
  {
    hide AddressText;
    if |l| == 0 { enc.WriteString("NIL"); return; }
    enc.WriteString("(");
    var i := 0;
    ghost var text := AddressesText(enc.conf, l);
    assert l[0..] == l;
    while i < |l|
      invariant i <= |l| && enc.err == old(enc.err)
      invariant !enc.err ==> AddressesLeft(enc.conf, enc.out, l, i) == old(enc.out) + ("(" + text)
    {
      AddressesLeftStep(enc.conf, enc.out, l, i);
      if i > 0 { enc.WriteString(" "); }
      WriteAddress(enc, l[i]);
      i := i + 1;
    }
    enc.WriteString(")");
  }

  lemma ListsSnoc(e: Enc, o: string, ls: seq<seq<Address>>, i: nat)
    requires i < |ls|
    ensures o + AddressListText(e, ls[i]) + " " + ListsText(e, ls[i + 1..]) == o + ListsText(e, ls[i..])
  {
    hide AddressListText;
    assert ls[i..][1..] == ls[i + 1..];
    Assoc(o + AddressListText(e, ls[i]), " ", ListsText(e, ls[i + 1..]));
    Assoc(o, AddressListText(e, ls[i]), " " + ListsText(e, ls[i + 1..]));
  }

  /** The loop over the address lists of an envelope, each with the space behind it. */
  method WriteLists(enc: Encoder, ls: seq<seq<Address>>)
    modifies enc
    ensures enc.err == old(enc.err) && (!enc.err ==> enc.out == old(enc.out) + ListsText(enc.conf, ls))
  {
    hide AddressListText, ListsText;
    var i := 0;
    assert ls[0..] == ls;
    while i < |ls|
      invariant i <= |ls| && enc.err == old(enc.err)
      invariant !enc.err ==> enc.out + ListsText(enc.conf, ls[i..]) == old(enc.out) + ListsText(enc.conf, ls)
    {
      ListsSnoc(enc.conf, enc.out, ls, i);
      WriteAddressList(enc, ls[i]);
      enc.WriteString(" ");
      i := i + 1;
    }
    NoLists(enc.conf);
    assert ls[i..] == [];
  }

  lemma NoLists(e: Enc)
    ensures ListsText(e, []) == ""
  {
  }

  /** writeEnvelope. */
  method WriteEnvelope(enc: Encoder, v: Envelope)
    modifies enc
    ensures enc.err == old(enc.err) && (!enc.err ==> enc.out == old(enc.out) + EnvelopeText(enc.conf, v))
  {
    hide FieldsText, ListsText, EncodedWord;
    ghost var o, e := enc.out, enc.conf;
    ghost var a, b := FieldsText(e, [v.date, EncodedWord(e, v.subject)]), FieldsText(e, [v.inReplyTo, v.messageID]);
    var sender := if v.sender == None then v.from else v.sender.value;
    var replyTo := if v.replyTo == None then v.from else v.replyTo.value;
    var lists := [v.from, sender, replyTo, v.to, v.cc, v.bcc];
    assert lists == Lists(v);
    enc.WriteString("(");
    WriteFields(enc, [v.date, EncodedWord(enc.conf, v.subject)]);
    enc.WriteString(" ");
    WriteLists(enc, lists);
    WriteFields(enc, [v.inReplyTo, v.messageID]);
    enc.WriteString(")");
    Chain6(o, "(", a, " ", ListsText(e, lists), b, ")");
  }

  // ---------------------------------------------------------------- trees

  method WriteBasic(enc: Encoder, b: Body)
    requires b.Single?
    modifies enc
    ensures enc.err == old(enc.err) && (!enc.err ==> enc.out == old(enc.out) + BasicText(enc.conf, b))
  {
    hide StringText, ParamsText, FieldsText, Digits, Encoding;
    ghost var o, e := enc.out, enc.conf;
    ghost var s, p, f := StringText(e, b.subtype), ParamsText(e, b.params), FieldsText(e, [b.id, b.description, Encoding(b)]);
    enc.Write(b.subtype);
    enc.WriteString(" ");
    WriteParams(enc, b.params);
    enc.WriteString(" ");
    WriteFields(enc, [b.id, b.description, Encoding(b)]);
    enc.WriteString(" ");
    enc.WriteString(Digits(b.size));
    Chain6(o, s, " ", p, " ", f, " " + Digits(b.size));
    Assoc(o + s + " " + p + " " + f, " ", Digits(b.size));
  }

  method WriteKind(enc: Encoder, b: Body, extended: bool)
    requires b.Single? && Printable(b, extended)
    modifies enc
    ensures enc.err == old(enc.err) && (!enc.err ==> enc.out == old(enc.out) + KindText(enc.conf, b, extended))
    decreases b, 0
  {
    hide EnvelopeText, BodyText, Digits;
    ghost var o, e := enc.out, enc.conf;
    if b.message.Some? {
      var m := b.message.value;
      enc.WriteString(" ");
      WriteEnvelope(enc, m.envelope);
      enc.WriteString(" ");
      WriteBody(enc, m.body, extended);
      enc.WriteString(" ");
      enc.WriteString(Digits(m.lines));
      Chain6(o, " ", EnvelopeText(e, m.envelope), " ", BodyText(e, m.body, extended), " ", Digits(m.lines));
    } else if b.text.Some? {
      enc.WriteString(" ");
      enc.WriteString(Digits(b.text.value));
      Assoc(o, " ", Digits(b.text.value));
    } else {
      assert o + "" == o;
    }
  }

  /** The trees that the writer does not panic on: no multipart is empty, and extension data is there
      when it is asked for. */
  predicate Printable(b: Body, extended: bool)
    decreases b
  {
    match b
    case Single(_, _, _, _, _, _, _, message, _, ext) =>
      (message.Some? ==> Printable(message.value.body, extended)) && (extended ==> ext.Some?)
    case Multi(children, _, ext) =>
      children != [] && (forall i | 0 <= i < |children| :: Printable(children[i], extended)) && (extended ==> ext.Some?)
  }

  method WriteSingle(enc: Encoder, b: Body, extended: bool)
    requires b.Single? && Printable(b, extended)
    modifies enc
    ensures enc.err == old(enc.err)
    ensures !enc.err ==>
      enc.out == old(enc.out) + (StringText(enc.conf, b.typ) + (" " + (BasicText(enc.conf, b) + (KindText(enc.conf, b, extended)
        + if extended then SingleExtText(enc.conf, b) else ""))))
    decreases b, 1
  {
    hide StringText, BasicText, KindText, TailText;
    ghost var o, e := enc.out, enc.conf;
    ghost var s, h, k := StringText(e, b.typ), BasicText(e, b), KindText(e, b, extended);
    enc.Write(b.typ);
    enc.WriteString(" ");
    WriteBasic(enc, b);
    WriteKind(enc, b, extended);
    ghost var o1 := enc.out;
    if extended {
      enc.WriteString(" ");
      enc.WriteString("NIL");
      WriteTail(enc, b.ext.value);
      Assoc(o1 + " ", "NIL", TailText(e, b.ext.value));
      Assoc(o1, " ", "NIL" + TailText(e, b.ext.value));
      Chain4(o + s, " ", h, k, SingleExtText(e, b));
      Assoc(o, s, " " + (h + (k + SingleExtText(e, b))));
    } else {
      Chain4(o, s, " ", h, k);
      assert k + "" == k;
    }
  }

  method WriteMulti(enc: Encoder, b: Body, extended: bool)
    requires b.Multi? && Printable(b, extended)
    modifies enc
    ensures enc.err == old(enc.err)
    ensures !enc.err ==>
      enc.out == old(enc.out) + (ChildrenText(enc.conf, b.children, extended) + (" " + (StringText(enc.conf, b.subtype)
        + if extended then MultiExtText(enc.conf, b) else "")))
    decreases b, 1
  {
    hide StringText, ChildrenText, ParamsText, TailText;
    ghost var o, e := enc.out, enc.conf;
    ghost var l, s := ChildrenText(e, b.children, extended), StringText(e, b.subtype);
    WriteChildren(enc, b.children, extended);
    enc.WriteString(" ");
    enc.Write(b.subtype);
    ghost var o1 := enc.out;
    if extended {
      var x := b.multiExt.value;
      enc.WriteString(" ");
      WriteParams(enc, x.params);
      WriteTail(enc, x.ext);
      Assoc(o1 + " ", ParamsText(e, x.params), TailText(e, x.ext));
      Assoc(o1, " ", ParamsText(e, x.params) + TailText(e, x.ext));
      Chain4(o, l, " ", s, MultiExtText(e, b));
    } else {
      Assoc(o + l, " ", s);
      Assoc(o, l, " " + s);
      assert s + "" == s;
    }
  }

  /** The parts one after the other, with nothing in between. */
  method WriteChildren(enc: Encoder, l: seq<Body>, extended: bool)
    requires forall i | 0 <= i < |l| :: Printable(l[i], extended)
    modifies enc
    ensures enc.err == old(enc.err) && (!enc.err ==> enc.out == old(enc.out) + ChildrenText(enc.conf, l, extended))
    decreases l, 0
  {
    hide BodyText, Printable;
    var i := 0;
    assert l[0..] == l;
    while i < |l|
      invariant i <= |l| && enc.err == old(enc.err)
      invariant !enc.err ==> enc.out + ChildrenText(enc.conf, l[i..], extended) == old(enc.out) + ChildrenText(enc.conf, l, extended)
    {
      ChildrenStep(enc.conf, enc.out, l, i, extended);
      WriteBody(enc, l[i], extended);
      i := i + 1;
    }
    assert ChildrenText(enc.conf, l[i..], extended) == "";
  }

  lemma ChildrenStep(e: Enc, o: string, l: seq<Body>, i: nat, extended: bool)
    requires i < |l|
    ensures o + BodyText(e, l[i], extended) + ChildrenText(e, l[i + 1..], extended) == o + ChildrenText(e, l[i..], extended)
  {
    hide BodyText;
    assert l[i..][1..] == l[i + 1..];
    Assoc(o, BodyText(e, l[i], extended), ChildrenText(e, l[i + 1..], extended));
  }

  /** writeBodyStructure. */
  method WriteBody(enc: Encoder, b: Body, extended: bool)
    requires Printable(b, extended)
    modifies enc
    ensures enc.err == old(enc.err) && (!enc.err ==> enc.out == old(enc.out) + BodyText(enc.conf, b, extended))
    decreases b, 2
  {
    hide StringText, BasicText, KindText, SingleExtText, MultiExtText, ChildrenText;
    ghost var o := enc.out;
    enc.WriteString("(");
    if b.Single? { WriteSingle(enc, b, extended); } else { WriteMulti(enc, b, extended); }
    ghost var o1 := enc.out;
    enc.WriteString(")");
    if !enc.err {
      ghost var inner := o1[|o + "("|..];
      assert o1 == o + "(" + inner;
      Assoc(o + "(", inner, ")");
      Assoc(o, "(", inner + ")");
    }
  }
}
