/** Body structures: what writeBodyStructure of imapserver/fetch.go prints and what readBody of
    imapclient/fetch.go accepts. */
module BodyStructure {
  import opened Text
  import opened Wire
  import opened BodyParams
  import opened Envelope

  datatype Disposition = Disposition(value: string, params: Params)

  datatype Ext = Ext(disposition: Option<Disposition>, language: seq<string>, location: string)

  datatype MultiExt = MultiExt(params: Params, ext: Ext)

  datatype Message = Message(envelope: Envelope, body: Body, lines: nat)

  datatype Body =
    | Single(typ: string, subtype: string, params: Params, id: string, description: string, encoding: string,
             size: nat, message: Option<Message>, text: Option<nat>, ext: Option<Ext>)
    | Multi(children: seq<Body>, subtype: string, multiExt: Option<MultiExt>)

  // ---------------------------------------------------------------- printing

  /** writeBodyFldDsp. */
  ghost function DspText(e: Enc, v: Option<Disposition>): (r: string) {
    match v
    case None => "NIL"
    case Some(x) => "(" + (StringText(e, x.value) + (" " + (ParamsText(e, x.params) + ")")))
  }

  /** Disposition, language and location, each behind a space. */
  ghost function TailText(e: Enc, x: Ext): (r: string) {
    " " + (DspText(e, x.disposition) + (" " + (ListText(e, x.language) + (" " + NStringText(e, x.location)))))
  }

  function Encoding(b: Body): (r: string)
    requires b.Single?
  {
    if b.encoding == "" then "7bit" else Lower(b.encoding)
  }

  /** The basic fields of a single part. */
  ghost function BasicText(e: Enc, b: Body): (r: string)
    requires b.Single?
  {
    StringText(e, b.subtype) + (" " + (ParamsText(e, b.params) + (" " +
      (FieldsText(e, [b.id, b.description, Encoding(b)]) + (" " + Digits(b.size))))))
  }

  /** The fields of a message or a text. */
  ghost function KindText(e: Enc, b: Body, extended: bool): (r: string)
    requires b.Single?
    decreases b, 0
  {
    if b.message.Some? then
      var m := b.message.value;
      " " + (EnvelopeText(e, m.envelope) + (" " + (BodyText(e, m.body, extended) + (" " + Digits(m.lines)))))
    else if b.text.Some? then " " + Digits(b.text.value)
    else ""
  }

  ghost function SingleExtText(e: Enc, b: Body): (r: string)
    requires b.Single? && b.ext.Some?
  {
    " " + ("NIL" + TailText(e, b.ext.value))
  }

  ghost function MultiExtText(e: Enc, b: Body): (r: string)
    requires b.Multi? && b.multiExt.Some?
  {
    " " + (ParamsText(e, b.multiExt.value.params) + TailText(e, b.multiExt.value.ext))
  }

  ghost function ChildrenText(e: Enc, l: seq<Body>, extended: bool): (r: string)
    ensures l != [] ==> r != [] && r[0] == '('
    decreases l
  {
    if l == [] then "" else BodyText(e, l[0], extended) + ChildrenText(e, l[1..], extended)
  }

  /** writeBodyStructure. */
  ghost function BodyText(e: Enc, b: Body, extended: bool): (r: string)
    ensures r != [] && r[0] == '('
    decreases b, 1
  {
    "(" + ((match b
            case Single(_, _, _, _, _, _, _, _, _, _) =>
              StringText(e, b.typ) + (" " + (BasicText(e, b) + (KindText(e, b, extended)
                + if extended && b.ext.Some? then SingleExtText(e, b) else "")))
            case Multi(_, _, _) =>
              ChildrenText(e, b.children, extended) + (" " + (StringText(e, b.subtype)
                + if extended && b.multiExt.Some? then MultiExtText(e, b) else "")))
           + ")")
  }

  // ---------------------------------------------------------------- reading

  /** DiscardValue. Its value is false when a list is nested too deeply, which is no decoder error. */
  function Discard(c: Conf, d: Dec): (r: Res<bool>)
    ensures |r.d.rest| <= |d.rest| && (r.Yes? ==> |r.d.rest| < |d.rest| && r.d.depth == d.depth)
    decreases |d.rest|, 0
  {
    var s := String(c, d);
    if s.Yes? then Yes(true, s.d)
    else
      var open := Accept(c, s.d, '(');
      if open.Yes? then
        if Accept(c, open.d, ')').Yes? then Yes(true, Accept(c, open.d, ')').d)
        else if d.depth + 1 >= MAX_LIST_DEPTH then Yes(false, open.d)
        else
          var l := DiscardItems(c, open.d.(depth := d.depth + 1));
          if l.No? then No(l.d) else Yes(true, l.d.(depth := d.depth))
      else
        var a := Func(c, s.d, AtomChars);
        if a.Yes? then Yes(true, a.d) else No(a.d)
  }

  function DiscardItems(c: Conf, d: Dec): (r: Res<()>)
    ensures |r.d.rest| <= |d.rest| && (r.Yes? ==> r.d.depth == d.depth)
    decreases |d.rest|, 1
  {
    var v := Discard(c, d);
    if v.No? then No(v.d)
    else if Accept(c, v.d, ')').Yes? then Accept(c, v.d, ')')
    else
      var sp := SP(c, v.d);
      if sp.No? then No(sp.d) else DiscardItems(c, sp.d)
  }

  /** The loop of readBody that skips what it does not know. */
  function SkipRest(c: Conf, d: Dec): (r: Res<()>)
    ensures |r.d.rest| <= |d.rest| && (r.Yes? ==> r.d.depth == d.depth)
    decreases |d.rest|
  {
    var sp := SP(c, d);
    if sp.No? then Yes((), sp.d)
    else
      var v := Discard(c, sp.d);
      if v.No? || !v.value then No(v.d) else SkipRest(c, v.d)
  }

  /** readBodyFldDsp. */
  function ReadDsp(c: Conf, d: Dec): (r: Res<Option<Disposition>>)
    ensures |r.d.rest| <= |d.rest| && r.d.depth == d.depth
  {
    var open := Accept(c, d, '(');
    if open.No? then
      var a := Func(c, open.d, AtomChars);
      if a.Yes? && a.value == "NIL" then Yes(None, a.d) else No(a.d)
    else
      var v := String(c, open.d);
      if v.No? then No(v.d)
      else
        var sp := SP(c, v.d);
        if sp.No? then No(sp.d)
        else
          var p := ReadParams(c, sp.d);
          if p.No? then No(p.d)
          else
            var close := Accept(c, p.d, ')');
            if close.No? then No(close.d) else Yes(Some(Disposition(v.value, p.value)), close.d)
  }

  /** The end of readBodyExt1part and readBodyExtMpart: each field may be missing. */
  function ReadTail(c: Conf, d: Dec): (r: Res<Ext>)
    ensures |r.d.rest| <= |d.rest| && r.d.depth == d.depth
  {
    var s1 := SP(c, d);
    if s1.No? then Yes(Ext(None, [], ""), s1.d)
    else
      var x := ReadDsp(c, s1.d);
      if x.No? then No(x.d)
      else
        var s2 := SP(c, x.d);
        if s2.No? then Yes(Ext(x.value, [], ""), s2.d)
        else
          var l := ReadLang(c, s2.d);
          if l.No? then No(l.d)
          else
            var s3 := SP(c, l.d);
            if s3.No? then Yes(Ext(x.value, l.value, ""), s3.d)
            else
              var loc := NString(c, s3.d);
              if loc.No? then No(loc.d) else Yes(Ext(x.value, l.value, loc.value), loc.d)
  }

  /** readBodyExt1part. */
  function ReadSingleExt(c: Conf, d: Dec): (r: Res<Ext>)
    ensures |r.d.rest| <= |d.rest| && r.d.depth == d.depth
  {
    var md5 := NString(c, d);
    if md5.No? then No(md5.d) else ReadTail(c, md5.d)
  }

  /** readBodyExtMpart. */
  function ReadMultiExt(c: Conf, d: Dec): (r: Res<MultiExt>)
    ensures |r.d.rest| <= |d.rest| && r.d.depth == d.depth
  {
    var p := ReadParams(c, d);
    if p.No? then No(p.d)
    else
      var x := ReadTail(c, p.d);
      if x.No? then No(x.d) else Yes(MultiExt(p.value, x.value), x.d)
  }

  /** ExpectBodyFldOctets: "-1" counts as no size. */
  function ReadOctets(c: Conf, d: Dec): (r: Res<nat>)
    ensures |r.d.rest| <= |d.rest| && r.d.depth == d.depth
  {
    var minus := Accept(c, d, '-');
    if minus.No? then Number(c, d, MAX_UINT32)
    else
      var one := Accept(c, minus.d, '1');
      if one.No? then No(one.d) else Yes(0, one.d)
  }

  /** The basic fields, into a part of the type given. */
  function ReadBasic(c: Conf, d: Dec, typ: string): (r: Res<Body>)
    ensures |r.d.rest| <= |d.rest| && r.d.depth == d.depth && (r.Yes? ==> r.value.Single?)
  {
    var s := String(c, d);
    if s.No? then No(s.d)
    else
      var s1 := SP(c, s.d);
      if s1.No? then No(s1.d)
      else
        var p := ReadParams(c, s1.d);
        if p.No? then No(p.d)
        else
          var s2 := SP(c, p.d);
          if s2.No? then No(s2.d) else ReadBasicEnd(c, s2.d, typ, s.value, p.value)
  }

  function ReadBasicEnd(c: Conf, d: Dec, typ: string, subtype: string, params: Params): (r: Res<Body>)
    ensures |r.d.rest| <= |d.rest| && r.d.depth == d.depth && (r.Yes? ==> r.value.Single?)
  {
    var l := ReadFields(c, d, 3);
    if l.No? then No(l.d)
    else
      var sp := SP(c, l.d);
      if sp.No? then No(sp.d)
      else
        var n := ReadOctets(c, sp.d);
        if n.No? then No(n.d)
        else
          var encoding := if l.value[2] == "" then "7bit" else l.value[2];
          Yes(Single(typ, subtype, params, l.value[0], DecodedWord(c, l.value[1]), encoding, n.value, None, None, None), n.d)
  }

  predicate IsMessage(typ: string, subtype: string) {
    EqualFold(typ, "message") && (EqualFold(subtype, "rfc822") || EqualFold(subtype, "global"))
  }

  predicate IsText(typ: string) { EqualFold(typ, "text") }

  /** The message of a message part. */
  function ReadMessage(c: Conf, d: Dec): (r: Res<Message>)
    ensures |r.d.rest| <= |d.rest| && (r.Yes? ==> r.d.depth == d.depth)
    decreases |d.rest|, 1
  {
    var v := ReadEnvelope(c, d);
    if v.No? then No(v.d)
    else
      var s1 := SP(c, v.d);
      if s1.No? then No(s1.d)
      else
        var b := ReadBody(c, s1.d);
        if b.No? then No(b.d)
        else
          var s2 := SP(c, b.d);
          if s2.No? then No(s2.d)
          else
            var n := Number(c, s2.d, MAX_INT64);
            if n.No? then No(n.d) else Yes(Message(v.value, b.value, n.value), n.d)
  }

  /** What follows the basic fields when there is a space: the fields of a message or a text. */
  function ReadKind(c: Conf, d: Dec, b: Body): (r: Res<Body>)
    requires b.Single?
    ensures |r.d.rest| <= |d.rest| && (r.Yes? ==> r.d.depth == d.depth && r.value.Single?)
    decreases |d.rest|, 2
  {
    if IsMessage(b.typ, b.subtype) then
      var m := ReadMessage(c, d);
      if m.No? then No(m.d) else Yes(b.(message := Some(m.value)), m.d)
    else
      var n := Number(c, d, MAX_INT64);
      if n.No? then No(n.d) else Yes(b.(text := Some(n.value)), n.d)
  }

  /** The extension data of a single part, if there is a space in front of it. */
  function ReadSpacedExt(c: Conf, d: Dec, b: Body): (r: Res<Body>)
    requires b.Single?
    ensures |r.d.rest| <= |d.rest| && (r.Yes? ==> r.d.depth == d.depth)
  {
    var sp := SP(c, d);
    if sp.No? then Yes(b, sp.d)
    else
      var x := ReadSingleExt(c, sp.d);
      if x.No? then No(x.d) else Yes(b.(ext := Some(x.value)), x.d)
  }

  /** The rest of a single part, after its basic fields. */
  function ReadRest(c: Conf, d: Dec, b: Body): (r: Res<Body>)
    requires b.Single?
    ensures |r.d.rest| <= |d.rest| && (r.Yes? ==> r.d.depth == d.depth)
    decreases |d.rest|, 3
  {
    if !IsMessage(b.typ, b.subtype) && !IsText(b.typ) then ReadSpacedExt(c, d, b)
    else
      var sp := SP(c, d);
      if sp.No? then Yes(b, sp.d)
      else
        var k := ReadKind(c, sp.d, b);
        if k.No? then No(k.d) else ReadSpacedExt(c, k.d, k.value)
  }

  /** readBodyType1part, after the type. */
  function ReadSingle(c: Conf, d: Dec, typ: string): (r: Res<Body>)
    ensures |r.d.rest| <= |d.rest| && (r.Yes? ==> r.d.depth == d.depth)
    decreases |d.rest|, 4
  {
    var s := SP(c, d);
    if s.No? then No(s.d)
    else
      var h := ReadBasic(c, s.d, typ);
      if h.No? then No(h.d) else ReadRest(c, h.d, h.value)
  }

  /** The loop of readBodyTypeMpart: parts until a string follows. */
  function ReadChildren(c: Conf, d: Dec): (r: Res<(seq<Body>, string)>)
    ensures |r.d.rest| <= |d.rest| && (r.Yes? ==> r.d.depth == d.depth)
    decreases |d.rest|, 1
  {
    var b := ReadBody(c, d);
    if b.No? then No(b.d)
    else
      var sp := SP(c, b.d);
      var s := if sp.Yes? then String(c, sp.d) else No(sp.d);
      if s.Yes? then Yes(([b.value], s.value), s.d)
      else
        var r := ReadChildren(c, s.d);
        if r.No? then r else Yes(([b.value] + r.value.0, r.value.1), r.d)
  }

  /** readBodyTypeMpart. */
  function ReadMulti(c: Conf, d: Dec): (r: Res<Body>)
    ensures |r.d.rest| <= |d.rest| && (r.Yes? ==> r.d.depth == d.depth)
    decreases |d.rest|, 2
  {
    var l := ReadChildren(c, d);
    if l.No? then No(l.d)
    else
      var b := Multi(l.value.0, l.value.1, None);
      var sp := SP(c, l.d);
      if sp.No? then Yes(b, sp.d)
      else
        var x := ReadMultiExt(c, sp.d);
        if x.No? then No(x.d) else Yes(b.(multiExt := Some(x.value)), x.d)
  }

  /** readBody. */
  function ReadBody(c: Conf, d: Dec): (r: Res<Body>)
    ensures |r.d.rest| <= |d.rest| && (r.Yes? ==> r.d.depth == d.depth && |r.d.rest| < |d.rest|)
    decreases |d.rest|, 0
  {
    var open := Accept(c, d, '(');
    if open.No? then No(open.d)
    else
      var t := String(c, open.d);
      var b := if t.Yes? then ReadSingle(c, t.d, t.value) else ReadMulti(c, t.d);
      if b.No? then No(b.d)
      else
        var s := SkipRest(c, b.d);
        if s.No? then No(s.d)
        else
          var close := Accept(c, s.d, ')');
          if close.No? then No(close.d) else Yes(b.value, close.d)
  }
}
