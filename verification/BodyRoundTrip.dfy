/** Body structures survive the wire: readBody on what writeBodyStructure printed. */
module BodyRoundTrip {
  import opened Text
  import opened Wire
  import opened BodyParams
  import opened Envelope
  import opened BodyStructure

  // ---------------------------------------------------------------- well-formed trees

  predicate DspOk(c: Conf, v: Option<Disposition>) { v.Some? ==> Sendable(c, v.value.value) && ParamsOk(c, v.value.params) }

  ghost predicate ExtOk(c: Conf, x: Ext) { DspOk(c, x.disposition) && AllSendable(c, x.language) && Sendable(c, x.location) }

  ghost predicate FieldsOk(c: Conf, b: Body)
    requires b.Single?
  {
    && Sendable(c, b.typ) && Sendable(c, b.subtype) && ParamsOk(c, b.params) && b.size <= MAX_UINT32
    && AllSendable(c, [b.id, b.description, Encoding(b)])
  }

  /** What a tree must be for the server to print it: message fields exactly on messages, line counts
      exactly on texts, at least one part in a multipart, extension data when it is asked for. */
  ghost predicate BodyOk(c: Conf, e: Enc, b: Body, extended: bool)
    decreases b
  {
    match b
    case Single(typ, subtype, _, _, _, _, _, message, text, ext) =>
      && FieldsOk(c, b)
      && (message.Some? <==> IsMessage(typ, subtype)) && (text.Some? <==> IsText(typ))
      && (message.Some? ==>
            && EnvelopeOk(c, e, message.value.envelope) && message.value.lines <= MAX_INT64
            && BodyOk(c, e, message.value.body, extended))
      && (text.Some? ==> text.value <= MAX_INT64)
      && (extended ==> ext.Some? && ExtOk(c, ext.value))
    case Multi(children, subtype, ext) =>
      && children != [] && Sendable(c, subtype) && (forall i | 0 <= i < |children| :: BodyOk(c, e, children[i], extended))
      && (extended ==> ext.Some? && ParamsOk(c, ext.value.params) && ExtOk(c, ext.value.ext))
  }

  // what the client gets

  function ReceivedDsp(c: Conf, v: Option<Disposition>): (r: Option<Disposition>) {
    if v.None? then None else Some(v.value.(params := Decoded(c, v.value.params)))
  }

  function ReceivedExt(c: Conf, x: Ext): (r: Ext) { x.(disposition := ReceivedDsp(c, x.disposition)) }

  function ReceivedMultiExt(c: Conf, x: MultiExt): (r: MultiExt) {
    MultiExt(Decoded(c, x.params), ReceivedExt(c, x.ext))
  }

  function SentExt(c: Conf, x: Option<Ext>, extended: bool): (r: Option<Ext>) {
    if extended && x.Some? then Some(ReceivedExt(c, x.value)) else None
  }

  /** The tree at the client: encodings in lower case, "7bit" for none, descriptions, parameter values and
      envelopes with their words decoded, extension data only if it was sent. */
  function Normal(c: Conf, e: Enc, b: Body, extended: bool): (r: Body)
    ensures r.Single? == b.Single?
    decreases b
  {
    match b
    case Single(_, _, _, _, _, _, _, message, _, _) =>
      var m := if message.None? then None
               else Some(Message(ReceivedEnvelope(c, e, message.value.envelope),
                                 Normal(c, e, message.value.body, extended), message.value.lines));
      b.(params := Decoded(c, b.params), description := DecodedWord(c, b.description), encoding := Encoding(b),
         message := m, ext := SentExt(c, b.ext, extended))
    case Multi(_, _, _) =>
      Multi(NormalAll(c, e, b.children, extended), b.subtype,
            if extended && b.multiExt.Some? then Some(ReceivedMultiExt(c, b.multiExt.value)) else None)
  }

  function NormalAll(c: Conf, e: Enc, l: seq<Body>, extended: bool): (r: seq<Body>)
    ensures |r| == |l|
    decreases l
  {
    if l == [] then [] else [Normal(c, e, l[0], extended)] + NormalAll(c, e, l[1..], extended)
  }

  // ---------------------------------------------------------------- pieces

  /** A space and what follows it. */
  lemma SpacedAt(c: Conf, d: Dec, rest: string, suffix: string) returns (d1: Dec)
    requires At(c, d, " " + rest, suffix) && Visible(rest + suffix)
    ensures SP(c, d) == Yes((), d1) && At(c, d1, rest, suffix) && d1.depth == d.depth
    ensures forall d3 | Past(d1, d3, rest, suffix) :: Past(d, d3, " " + rest, suffix)
  {
    AtSplit(c, d, " ", rest, suffix);
    SpaceReads(c, d, rest + suffix);
    d1 := SP(c, d).d;
  }

  lemma DspStart(e: Enc, v: Option<Disposition>)
    ensures DspText(e, v) != [] && DspText(e, v)[0] in "N("
  {
    hide StringText, ParamsText;
  }

  lemma ParamsStart(e: Enc, p: Params)
    ensures ParamsText(e, p) != [] && ParamsText(e, p)[0] in "N("
  {
    ListTextStart(e, Flat(SortedKeys(p.Keys), p));
    hide ListText, Flat;
  }

  lemma DspReads(c: Conf, e: Enc, d: Dec, v: Option<Disposition>, suffix: string)
    requires Opposite(c, e) && DspOk(c, v) && d.depth + 1 < MAX_LIST_DEPTH && Closes(suffix)
    requires At(c, d, DspText(e, v), suffix)
    ensures ReadsAs(ReadDsp(c, d), ReceivedDsp(c, v), d, DspText(e, v), suffix)
  {
    hide StringText, ParamsText, String, ReadParams, ParamsOk, Func;
    match v
    case None =>
      NilReads(c, d, suffix);
    case Some(x) =>
      var a, p := StringText(e, x.value), ParamsText(e, x.params);
      var r2 := p + ")";
      var r1 := " " + r2;
      AtSplit(c, d, "(", a + r1, suffix);
      AcceptReads(c, d, '(', a + r1 + suffix);
      var d1 := Accept(c, d, '(').d;
      AtSplit(c, d1, a, r1, suffix);
      StringReads(c, e, d1, x.value, r1 + suffix);
      ParamsStart(e, x.params);
      var d2 := SpacedAt(c, String(c, d1).d, r2, suffix);
      AtSplit(c, d2, p, ")", suffix);
      ParamsReads(c, e, d2, x.params, ")" + suffix);
      AcceptReads(c, ReadParams(c, d2).d, ')', suffix);
  }

  lemma TailReads(c: Conf, e: Enc, d: Dec, x: Ext, suffix: string)
    requires Opposite(c, e) && ExtOk(c, x) && d.depth + 1 < MAX_LIST_DEPTH && Closes(suffix)
    requires At(c, d, TailText(e, x), suffix)
    ensures ReadsAs(ReadTail(c, d), ReceivedExt(c, x), d, TailText(e, x), suffix)
  {
    hide DspText, ReadDsp, ListText, ReadLang, NStringText, NString, DspOk;
    var v, l, s := DspText(e, x.disposition), ListText(e, x.language), NStringText(e, x.location);
    var r2 := l + (" " + s);
    var r1 := v + (" " + r2);
    DspStart(e, x.disposition);
    ListTextStart(e, x.language);
    NStringTextStart(e, x.location);
    var d1 := SpacedAt(c, d, r1, suffix);
    AtSplit(c, d1, v, " " + r2, suffix);
    DspReads(c, e, d1, x.disposition, " " + r2 + suffix);
    var d2 := SpacedAt(c, ReadDsp(c, d1).d, r2, suffix);
    AtSplit(c, d2, l, " " + s, suffix);
    ListReads(c, e, d2, x.language, " " + s + suffix);
    var d3 := SpacedAt(c, ReadLang(c, d2).d, s, suffix);
    NStringReads(c, e, d3, x.location, suffix);
  }

  // ---------------------------------------------------------------- extension data

  /** The extension data of a single part, or none, at the end of the part. */
  lemma SpacedExtReads(c: Conf, e: Enc, d: Dec, b: Body, part: Body, extended: bool, suffix: string)
    requires Opposite(c, e) && d.depth + 1 < MAX_LIST_DEPTH && suffix != [] && suffix[0] == ')'
    requires b.Single? && part.Single? && part.ext == None && (extended ==> b.ext.Some? && ExtOk(c, b.ext.value))
    requires At(c, d, if extended then SingleExtText(e, b) else "", suffix)
    ensures ReadsAs(ReadSpacedExt(c, d, part), part.(ext := SentExt(c, b.ext, extended)), d,
                    if extended then SingleExtText(e, b) else "", suffix)
  {
    if !extended {
      assert d.rest == suffix;
    } else {
      hide TailText, ReadTail, ExtOk, Func;
      var x := b.ext.value;
      var tail := TailText(e, x);
      TailStart(e, x);
      var d1 := SpacedAt(c, d, "NIL" + tail, suffix);
      AtSplit(c, d1, "NIL", tail, suffix);
      NilReads(c, d1, tail + suffix);
      TailReads(c, e, NString(c, d1).d, x, suffix);
    }
  }

  lemma TailStart(e: Enc, x: Ext)
    ensures TailText(e, x) != [] && TailText(e, x)[0] == ' '
  {
    hide DspText, ListText, NStringText;
  }

  lemma MultiExtReads(c: Conf, e: Enc, d: Dec, x: MultiExt, suffix: string)
    requires Opposite(c, e) && d.depth + 1 < MAX_LIST_DEPTH && suffix != [] && suffix[0] == ')'
    requires ParamsOk(c, x.params) && ExtOk(c, x.ext)
    requires At(c, d, ParamsText(e, x.params) + TailText(e, x.ext), suffix)
    ensures ReadsAs(ReadMultiExt(c, d), ReceivedMultiExt(c, x), d, ParamsText(e, x.params) + TailText(e, x.ext), suffix)
  {
    hide TailText, ReadTail, ParamsText, ReadParams, ExtOk, ParamsOk;
    var p, tail := ParamsText(e, x.params), TailText(e, x.ext);
    TailStart(e, x.ext);
    AtSplit(c, d, p, tail, suffix);
    ParamsReads(c, e, d, x.params, tail + suffix);
    TailReads(c, e, ReadParams(c, d).d, x.ext, suffix);
  }

  // ---------------------------------------------------------------- basic fields

  /** The part as it is after its basic fields. */
  function BaseOf(c: Conf, b: Body): (r: Body)
    requires b.Single?
    ensures r.Single? && r.ext == None
  {
    Single(b.typ, b.subtype, Decoded(c, b.params), b.id, DecodedWord(c, b.description), Encoding(b), b.size, None, None, None)
  }

  lemma EncodingNotEmpty(b: Body)
    requires b.Single?
    ensures Encoding(b) != ""
  {
  }

  lemma OctetsRead(c: Conf, d: Dec, n: nat, suffix: string)
    requires At(c, d, Digits(n), suffix) && n <= MAX_UINT32 && Closes(suffix)
    ensures ReadsAs(ReadOctets(c, d), n, d, Digits(n), suffix)
  {
    assert d.rest[0] == Digits(n)[0] && IsDigit(Digits(n)[0]);
    hide Digits;
    NumberReads(c, d, n, MAX_UINT32, suffix);
  }

  lemma BasicEndReads(c: Conf, e: Enc, d: Dec, b: Body, suffix: string)
    requires Opposite(c, e) && b.Single? && FieldsOk(c, b) && Closes(suffix)
    requires At(c, d, FieldsText(e, [b.id, b.description, Encoding(b)]) + (" " + Digits(b.size)), suffix)
    ensures ReadsAs(ReadBasicEnd(c, d, b.typ, b.subtype, Decoded(c, b.params)), BaseOf(c, b), d,
                    FieldsText(e, [b.id, b.description, Encoding(b)]) + (" " + Digits(b.size)), suffix)
  {
    EncodingNotEmpty(b);
    hide FieldsText, ReadFields, ReadOctets, Digits, AllSendable, Encoding, ParamsOk;
    var l := [b.id, b.description, Encoding(b)];
    var a, n := FieldsText(e, l), Digits(b.size);
    AtSplit(c, d, a, " " + n, suffix);
    FieldsRead(c, e, d, l, " " + n + suffix);
    assert IsDigit(n[0]);
    var d1 := SpacedAt(c, ReadFields(c, d, 3).d, n, suffix);
    OctetsRead(c, d1, b.size, suffix);
  }

  lemma BasicReads(c: Conf, e: Enc, d: Dec, b: Body, suffix: string)
    requires Opposite(c, e) && b.Single? && FieldsOk(c, b) && Closes(suffix) && d.depth + 1 < MAX_LIST_DEPTH
    requires At(c, d, BasicText(e, b), suffix)
    ensures ReadsAs(ReadBasic(c, d, b.typ), BaseOf(c, b), d, BasicText(e, b), suffix)
  {
    hide StringText, String, ParamsText, ReadParams, FieldsText, ReadBasicEnd, Digits, AllSendable, Encoding, ParamsOk, BaseOf;
    var l := [b.id, b.description, Encoding(b)];
    var s, p, r2 := StringText(e, b.subtype), ParamsText(e, b.params), FieldsText(e, l) + (" " + Digits(b.size));
    var r1 := p + (" " + r2);
    ParamsStart(e, b.params);
    FieldsTextStart(e, l);
    AtSplit(c, d, s, " " + r1, suffix);
    StringReads(c, e, d, b.subtype, " " + r1 + suffix);
    var d1 := SpacedAt(c, String(c, d).d, r1, suffix);
    AtSplit(c, d1, p, " " + r2, suffix);
    ParamsReads(c, e, d1, b.params, " " + r2 + suffix);
    var d2 := SpacedAt(c, ReadParams(c, d1).d, r2, suffix);
    BasicEndReads(c, e, d2, b, suffix);
  }

  // ---------------------------------------------------------------- trees

  /** The text of the fields that make a part a message. */
  ghost function MessageText(e: Enc, m: Message, extended: bool): (r: string)
    ensures r != [] && r[0] == '('
  {
    EnvelopeText(e, m.envelope) + (" " + (BodyText(e, m.body, extended) + (" " + Digits(m.lines))))
  }

  function ReceivedMessage(c: Conf, e: Enc, m: Message, extended: bool): (r: Message) {
    Message(ReceivedEnvelope(c, e, m.envelope), Normal(c, e, m.body, extended), m.lines)
  }

  ghost predicate MessageOk(c: Conf, e: Enc, m: Message, extended: bool) {
    EnvelopeOk(c, e, m.envelope) && m.lines <= MAX_INT64 && BodyOk(c, e, m.body, extended)
  }

  lemma {:induction false} MessageReads(c: Conf, e: Enc, d: Dec, m: Message, extended: bool, suffix: string)
    requires Opposite(c, e) && MessageOk(c, e, m, extended) && d.depth + 1 < MAX_LIST_DEPTH && Closes(suffix)
    requires At(c, d, MessageText(e, m, extended), suffix)
    ensures ReadsAs(ReadMessage(c, d), ReceivedMessage(c, e, m, extended), d, MessageText(e, m, extended), suffix)
    decreases m, 0
  {
    hide EnvelopeText, ReadEnvelope, ReceivedEnvelope, BodyText, ReadBody, Normal, BodyOk, EnvelopeOk, Digits;
    var v, b, n := EnvelopeText(e, m.envelope), BodyText(e, m.body, extended), Digits(m.lines);
    var r2 := b + (" " + n);
    assert IsDigit(n[0]);
    AtSplit(c, d, v, " " + r2, suffix);
    EnvelopeReads(c, e, d, m.envelope, " " + r2 + suffix);
    var d1 := SpacedAt(c, ReadEnvelope(c, d).d, r2, suffix);
    AtSplit(c, d1, b, " " + n, suffix);
    BodyReads(c, e, d1, m.body, extended, " " + n + suffix);
    var d2 := SpacedAt(c, ReadBody(c, d1).d, n, suffix);
    NumberReads(c, d2, m.lines, MAX_INT64, suffix);
  }

  /** The part as it is after the fields of a message or a text. */
  function WithKind(c: Conf, e: Enc, b: Body, extended: bool): (r: Body)
    requires b.Single?
    ensures r.Single? && r.ext == None
  {
    var m := if b.message.Some? then Some(ReceivedMessage(c, e, b.message.value, extended)) else None;
    BaseOf(c, b).(message := m, text := b.text)
  }

  /** A part that is a message or a text, with the fields that make it one. */
  lemma {:induction false} KindReads(c: Conf, e: Enc, d: Dec, b: Body, extended: bool, suffix: string)
    requires Opposite(c, e) && b.Single? && BodyOk(c, e, b, extended) && d.depth + 1 < MAX_LIST_DEPTH && Closes(suffix)
    requires b.message.Some? || b.text.Some?
    requires At(c, d, KindText(e, b, extended), suffix)
    ensures SP(c, d).Yes?
    ensures ReadsAs(ReadKind(c, SP(c, d).d, BaseOf(c, b)), WithKind(c, e, b, extended), d, KindText(e, b, extended), suffix)
    decreases b, 0
  {
    hide EnvelopeText, BodyText, ReadMessage, IsMessage, IsText;
    if b.message.Some? {
      var m := b.message.value;
      assert KindText(e, b, extended) == " " + MessageText(e, m, extended);
      assert MessageOk(c, e, m, extended);
      MessageNotText(b.typ, b.subtype);
      var d1 := SpacedAt(c, d, MessageText(e, m, extended), suffix);
      MessageReads(c, e, d1, m, extended, suffix);
    } else {
      var n := Digits(b.text.value);
      assert IsDigit(n[0]);
      var d1 := SpacedAt(c, d, n, suffix);
      hide Digits;
      NumberReads(c, d1, b.text.value, MAX_INT64, suffix);
    }
  }

  lemma MessageNotText(typ: string, subtype: string)
    ensures !(IsMessage(typ, subtype) && IsText(typ))
  {
    assert |Lower("message")| != |Lower("text")|;
  }

  ghost function SingleExtPart(e: Enc, b: Body, extended: bool): (r: string)
    requires b.Single? && (extended ==> b.ext.Some?)
  {
    if extended then SingleExtText(e, b) else ""
  }

  lemma SingleExtStart(e: Enc, b: Body, extended: bool, suffix: string)
    requires b.Single? && (extended ==> b.ext.Some?) && suffix != [] && suffix[0] == ')'
    ensures Closes(SingleExtPart(e, b, extended) + suffix)
  {
    hide TailText;
  }

  /** A single part after its basic fields. */
  lemma {:induction false} RestReads(c: Conf, e: Enc, d: Dec, b: Body, extended: bool, suffix: string)
    requires Opposite(c, e) && b.Single? && BodyOk(c, e, b, extended) && d.depth + 1 < MAX_LIST_DEPTH
    requires suffix != [] && suffix[0] == ')'
    requires At(c, d, KindText(e, b, extended) + SingleExtPart(e, b, extended), suffix)
    ensures ReadsAs(ReadRest(c, d, BaseOf(c, b)), Normal(c, e, b, extended), d,
                    KindText(e, b, extended) + SingleExtPart(e, b, extended), suffix)
    decreases b, 1
  {
    SingleExtStart(e, b, extended, suffix);
    hide Normal, KindText, ReadKind, ReadSpacedExt, SingleExtText, IsMessage, IsText, FieldsOk, EnvelopeOk, ExtOk;
    var k, x := KindText(e, b, extended), SingleExtPart(e, b, extended);
    AtSplit(c, d, k, x, suffix);
    if b.message.None? && b.text.None? {
      assert k + x == x;
      SpacedExtReads(c, e, d, b, BaseOf(c, b), extended, suffix);
    } else {
      KindReads(c, e, d, b, extended, x + suffix);
      var r := ReadKind(c, SP(c, d).d, BaseOf(c, b));
      SpacedExtReads(c, e, r.d, b, r.value, extended, suffix);
    }
  }

  lemma KindStart(e: Enc, b: Body, extended: bool, suffix: string)
    requires b.Single? && Closes(suffix)
    ensures Closes(KindText(e, b, extended) + suffix)
  {
    hide EnvelopeText, BodyText, Digits;
  }

  lemma OkParts(c: Conf, e: Enc, b: Body, extended: bool)
    requires b.Single? && BodyOk(c, e, b, extended)
    ensures FieldsOk(c, b) && Sendable(c, b.typ) && (extended ==> b.ext.Some? && ExtOk(c, b.ext.value))
  {
  }

  /** A single part up to its closing parenthesis. */
  lemma {:induction false} SinglePartReads(c: Conf, e: Enc, d: Dec, b: Body, extended: bool, text: string, suffix: string)
    requires Opposite(c, e) && b.Single? && BodyOk(c, e, b, extended) && d.depth + 1 < MAX_LIST_DEPTH
    requires text == " " + (BasicText(e, b) + (KindText(e, b, extended) + SingleExtPart(e, b, extended)))
    requires suffix != [] && suffix[0] == ')' && At(c, d, text, suffix)
    ensures ReadsAs(ReadSingle(c, d, b.typ), Normal(c, e, b, extended), d, text, suffix)
    decreases b, 2
  {
    hide BodyOk, FieldsOk, SingleExtPart, Normal, BasicText, ReadBasic, KindText, ReadRest, BaseOf, SP;
    OkParts(c, e, b, extended);
    SingleExtStart(e, b, extended, suffix);
    var h, k, x := BasicText(e, b), KindText(e, b, extended), SingleExtPart(e, b, extended);
    BasicStart(e, b);
    var d1 := SpacedAt(c, d, h + (k + x), suffix);
    KindStart(e, b, extended, x + suffix);
    AtSplit(c, d1, h, k + x, suffix);
    assert k + x + suffix == k + (x + suffix);
    BasicReads(c, e, d1, b, k + x + suffix);
    RestReads(c, e, ReadBasic(c, d1, b.typ).d, b, extended, suffix);
  }

  lemma BasicStart(e: Enc, b: Body)
    requires b.Single?
    ensures BasicText(e, b) != [] && BasicText(e, b)[0] in "\"{"
  {
    StringTextStart(e, b.subtype);
    hide StringText;
  }

  /** The parts of a multipart, told apart by the parenthesis that follows each but the last. */
  lemma {:induction false} ChildrenRead(c: Conf, e: Enc, d: Dec, l: seq<Body>, extended: bool, subtype: string, suffix: string)
    requires Opposite(c, e) && l != [] && (forall i | 0 <= i < |l| :: BodyOk(c, e, l[i], extended)) && Sendable(c, subtype)
    requires d.depth + 1 < MAX_LIST_DEPTH && At(c, d, ChildrenText(e, l, extended) + (" " + StringText(e, subtype)), suffix)
    ensures ReadsAs(ReadChildren(c, d), (NormalAll(c, e, l, extended), subtype), d,
                    ChildrenText(e, l, extended) + (" " + StringText(e, subtype)), suffix)
    decreases l
  {
    hide BodyText, ReadBody, StringText, String, Normal, BodyOk;
    var b, s := BodyText(e, l[0], extended), StringText(e, subtype);
    var rest := ChildrenText(e, l[1..], extended) + (" " + s);
    assert ChildrenText(e, l, extended) + (" " + s) == b + rest;
    AtSplit(c, d, b, rest, suffix);
    BodyReads(c, e, d, l[0], extended, rest + suffix);
    var d1 := ReadBody(c, d).d;
    if |l| == 1 {
      assert rest == " " + s;
      StringTextStart(e, subtype);
      var d2 := SpacedAt(c, d1, s, suffix);
      StringReads(c, e, d2, subtype, suffix);
      assert NormalAll(c, e, l[1..], extended) == [];
      assert NormalAll(c, e, l, extended) == [Normal(c, e, l[0], extended)];
    } else {
      BareParenthesis(c, d1);
      ChildrenRead(c, e, d1, l[1..], extended, subtype, suffix);
    }
  }

  /** In front of a parenthesis SP takes nothing, and no string starts there. */
  lemma BareParenthesis(c: Conf, d: Dec)
    requires d.rest != [] && d.rest[0] == '(' && (c.maxSize > 0 ==> d.read <= c.maxSize)
    ensures SP(c, d) == Yes((), d) && String(c, d) == No(d)
  {
  }

  lemma {:induction false} MultiReads(c: Conf, e: Enc, d: Dec, b: Body, extended: bool, suffix: string)
    requires Opposite(c, e) && b.Multi? && BodyOk(c, e, b, extended) && d.depth + 1 < MAX_LIST_DEPTH
    requires suffix != [] && suffix[0] == ')'
    requires At(c, d, MultiText(e, b, extended), suffix)
    ensures ReadsAs(ReadMulti(c, d), Normal(c, e, b, extended), d, MultiText(e, b, extended), suffix)
    decreases b, 2
  {
    hide ChildrenText, ReadChildren, StringText, NormalAll, ParamsText, TailText, ReadMultiExt, ParamsOk, ExtOk;
    var l := ChildrenText(e, b.children, extended) + (" " + StringText(e, b.subtype));
    if extended {
      var x := b.multiExt.value;
      var p := ParamsText(e, x.params) + TailText(e, x.ext);
      assert MultiText(e, b, extended) == l + (" " + p);
      AtSplit(c, d, l, " " + p, suffix);
      ChildrenRead(c, e, d, b.children, extended, b.subtype, " " + p + suffix);
      ParamsStart(e, x.params);
      var d1 := SpacedAt(c, ReadChildren(c, d).d, p, suffix);
      MultiExtReads(c, e, d1, x, suffix);
    } else {
      assert MultiText(e, b, extended) == l;
      ChildrenRead(c, e, d, b.children, extended, b.subtype, suffix);
    }
  }

  ghost function MultiText(e: Enc, b: Body, extended: bool): (r: string)
    requires b.Multi? && b.children != [] && (extended ==> b.multiExt.Some?)
    ensures r != [] && r[0] == '('
  {
    ChildrenText(e, b.children, extended) + (" " + (StringText(e, b.subtype)
      + if extended then MultiExtText(e, b) else ""))
  }

  /** What SkipRest and the closing parenthesis do after a part. */
  lemma BodyCloses(c: Conf, d: Dec, suffix: string)
    requires At(c, d, ")", suffix)
    ensures SkipRest(c, d) == Yes((), d) && ReadsAs(Accept(c, d, ')'), (), d, ")", suffix)
  {
    AcceptReads(c, d, ')', suffix);
  }

  lemma {:induction false} SingleReads(c: Conf, e: Enc, d: Dec, b: Body, extended: bool, text: string, suffix: string)
    requires Opposite(c, e) && b.Single? && BodyOk(c, e, b, extended) && d.depth + 1 < MAX_LIST_DEPTH
    requires text == StringText(e, b.typ) + (" " + (BasicText(e, b) + (KindText(e, b, extended) + SingleExtPart(e, b, extended))))
    requires suffix != [] && suffix[0] == ')' && At(c, d, text, suffix)
    ensures String(c, d).Yes? && String(c, d).value == b.typ
    ensures ReadsAs(ReadSingle(c, String(c, d).d, b.typ), Normal(c, e, b, extended), d, text, suffix)
    decreases b, 3
  {
    assert Sendable(c, b.typ);
    hide BodyOk, StringText, String, ReadSingle, BasicText, KindText, SingleExtPart, Normal;
    var s, rest := StringText(e, b.typ), " " + (BasicText(e, b) + (KindText(e, b, extended) + SingleExtPart(e, b, extended)));
    AtSplit(c, d, s, rest, suffix);
    StringReads(c, e, d, b.typ, rest + suffix);
    SinglePartReads(c, e, String(c, d).d, b, extended, rest, suffix);
  }

  /** For every well-formed tree, with or without extension data, and whatever follows it, readBody
      gives the tree back in its normal form and leaves exactly what follows. */
  lemma {:induction false} BodyReads(c: Conf, e: Enc, d: Dec, b: Body, extended: bool, suffix: string)
    requires Opposite(c, e) && BodyOk(c, e, b, extended) && d.depth + 1 < MAX_LIST_DEPTH
    requires At(c, d, BodyText(e, b, extended), suffix)
    ensures ReadsAs(ReadBody(c, d), Normal(c, e, b, extended), d, BodyText(e, b, extended), suffix)
    decreases b, 4
  {
    hide StringText, String, ReadSingle, ReadMulti, SkipRest, BasicText, KindText, SingleExtText, MultiExtText, ChildrenText, Normal,
         FieldsOk, EnvelopeOk, ParamsOk, ExtOk, IsMessage, IsText;
    var inner := if b.Single? then StringText(e, b.typ) + (" " + (BasicText(e, b) + (KindText(e, b, extended) + SingleExtPart(e, b, extended))))
                 else MultiText(e, b, extended);
    assert BodyText(e, b, extended) == "(" + (inner + ")");
    AtSplit(c, d, "(", inner + ")", suffix);
    AcceptReads(c, d, '(', inner + ")" + suffix);
    var d1 := Accept(c, d, '(').d;
    AtSplit(c, d1, inner, ")", suffix);
    if b.Single? {
      SingleReads(c, e, d1, b, extended, inner, ")" + suffix);
      BodyCloses(c, ReadSingle(c, String(c, d1).d, b.typ).d, suffix);
    } else {
      BareParenthesis(c, d1);
      MultiReads(c, e, d1, b, extended, ")" + suffix);
      BodyCloses(c, ReadMulti(c, d1).d, suffix);
    }
  }
}
