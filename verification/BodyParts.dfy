/** Body structures part by part: what of every part of a tree arrives at the client, field by field. */
module BodyParts {
  import opened Text
  import opened Wire
  import opened BodyParams
  import opened Envelope
  import opened BodyStructure
  import opened BodyRoundTrip

  /** The part at a path: in a multipart the path goes to a child, in a message to its body. */
  function PartAt(b: Body, path: seq<nat>): (r: Option<Body>)
    decreases |path|
  {
    if path == [] then Some(b)
    else
      match b
      case Multi(children, _, _) => if path[0] < |children| then PartAt(children[path[0]], path[1..]) else None
      case Single(_, _, _, _, _, _, _, message, _, _) =>
        if message.Some? && path[0] == 0 then PartAt(message.value.body, path[1..]) else None
  }

  // ---------------------------------------------------------------- what arrives

  ghost predicate SameParams(c: Conf, x: Params, y: Params) {
    x.Keys == y.Keys && forall k | k in x :: y[k] == c.decode(x[k])
  }

  ghost predicate SameAddresses(c: Conf, e: Enc, x: seq<Address>, y: seq<Address>) {
    |x| == |y| && forall i | 0 <= i < |x| :: y[i] == Address(c.decode(e.encode(x[i].name)), x[i].mailbox, x[i].host)
  }

  /** A list that may be missing arrives as the one that stands in for it, an empty one as none. */
  ghost predicate SameOrFrom(c: Conf, e: Enc, x: Option<seq<Address>>, from: seq<Address>, y: Option<seq<Address>>) {
    var sent := if x.Some? then x.value else from;
    (y.None? <==> sent == []) && (y.Some? ==> SameAddresses(c, e, sent, y.value))
  }

  ghost predicate SameEnvelope(c: Conf, e: Enc, x: Envelope, y: Envelope) {
    && y.date == x.date && y.subject == c.decode(e.encode(x.subject))
    && SameAddresses(c, e, x.from, y.from)
    && SameOrFrom(c, e, x.sender, x.from, y.sender) && SameOrFrom(c, e, x.replyTo, x.from, y.replyTo)
    && SameAddresses(c, e, x.to, y.to) && SameAddresses(c, e, x.cc, y.cc) && SameAddresses(c, e, x.bcc, y.bcc)
    && y.inReplyTo == x.inReplyTo && y.messageID == x.messageID
  }

  ghost predicate SameExt(c: Conf, x: Ext, y: Ext) {
    && y.language == x.language && y.location == x.location
    && (y.disposition.Some? <==> x.disposition.Some?)
    && (x.disposition.Some? ==>
          && y.disposition.value.value == x.disposition.value.value
          && SameParams(c, x.disposition.value.params, y.disposition.value.params))
  }

  /** What of one part arrives: the same type, numbers and structure, the encoding in lower case or as
      "7bit", and texts as the client decodes them. */
  ghost predicate SamePart(c: Conf, e: Enc, x: Body, y: Body, extended: bool) {
    match x
    case Single(_, _, _, _, _, _, _, _, _, _) =>
      && y.Single? && y.typ == x.typ && y.subtype == x.subtype && y.id == x.id && y.size == x.size && y.text == x.text
      && y.encoding == (if x.encoding == "" then "7bit" else Lower(x.encoding))
      && y.description == c.decode(x.description)
      && SameParams(c, x.params, y.params)
      && (y.message.Some? <==> x.message.Some?)
      && (x.message.Some? ==>
            && y.message.value.lines == x.message.value.lines
            && SameEnvelope(c, e, x.message.value.envelope, y.message.value.envelope))
      && (y.ext.Some? <==> extended && x.ext.Some?)
      && (y.ext.Some? ==> SameExt(c, x.ext.value, y.ext.value))
    case Multi(_, _, _) =>
      && y.Multi? && y.subtype == x.subtype && |y.children| == |x.children|
      && (y.multiExt.Some? <==> extended && x.multiExt.Some?)
      && (y.multiExt.Some? ==>
            && SameParams(c, x.multiExt.value.params, y.multiExt.value.params)
            && SameExt(c, x.multiExt.value.ext, y.multiExt.value.ext))
  }

  // ---------------------------------------------------------------- the normal form is that

  lemma DecodedParams(c: Conf, p: Params)
    ensures SameParams(c, p, Decoded(c, p))
  {
  }

  lemma {:induction false} ReceivedAddresses(c: Conf, e: Enc, l: seq<Address>)
    ensures SameAddresses(c, e, l, ReceivedAll(c, e, l))
    decreases |l|
  {
    if l != [] { ReceivedAddresses(c, e, l[1..]); }
  }

  lemma {:induction false} ReceivedListsAt(c: Conf, e: Enc, ls: seq<seq<Address>>, i: nat)
    requires i < |ls|
    ensures SameAddresses(c, e, ls[i], ReceivedLists(c, e, ls)[i])
    decreases |ls|
  {
    hide SameAddresses, ReceivedAll;
    if i == 0 { ReceivedAddresses(c, e, ls[0]); } else { ReceivedListsAt(c, e, ls[1..], i - 1); }
  }

  lemma ReceivedIsSame(c: Conf, e: Enc, v: Envelope)
    ensures SameEnvelope(c, e, v, ReceivedEnvelope(c, e, v))
  {
    var ls := Lists(v);
    ReceivedListsAt(c, e, ls, 0);
    ReceivedListsAt(c, e, ls, 1);
    ReceivedListsAt(c, e, ls, 2);
    ReceivedListsAt(c, e, ls, 3);
    ReceivedListsAt(c, e, ls, 4);
    ReceivedListsAt(c, e, ls, 5);
    assert forall i | 0 <= i < 6 :: |ReceivedLists(c, e, ls)[i]| == |ls[i]|;
    hide SameAddresses, ReceivedLists;
  }

  lemma ReceivedExtIsSame(c: Conf, x: Ext)
    ensures SameExt(c, x, ReceivedExt(c, x))
  {
    if x.disposition.Some? { DecodedParams(c, x.disposition.value.params); }
    hide SameParams, Decoded;
  }

  lemma {:induction false} NormalChild(c: Conf, e: Enc, l: seq<Body>, extended: bool, i: nat)
    requires i < |l|
    ensures NormalAll(c, e, l, extended)[i] == Normal(c, e, l[i], extended)
    decreases l
  {
    hide Normal;
    if i > 0 { NormalChild(c, e, l[1..], extended, i - 1); }
  }

  lemma NormalPart(c: Conf, e: Enc, b: Body, extended: bool)
    ensures SamePart(c, e, b, Normal(c, e, b, extended), extended)
  {
    hide SameParams, SameEnvelope, SameExt, Decoded, ReceivedExt, ReceivedEnvelope;
    match b
    case Single(_, _, params, _, _, _, _, message, _, ext) =>
      DecodedParams(c, params);
      if message.Some? { ReceivedIsSame(c, e, message.value.envelope); }
      if ext.Some? { ReceivedExtIsSame(c, ext.value); }
    case Multi(_, _, multiExt) =>
      if multiExt.Some? {
        DecodedParams(c, multiExt.value.params);
        ReceivedExtIsSame(c, multiExt.value.ext);
      }
  }

  /** The normal form has the same parts at the same paths, and no others. */
  lemma {:induction false} NormalPartAt(c: Conf, e: Enc, b: Body, extended: bool, path: seq<nat>)
    ensures var x, y := PartAt(b, path), PartAt(Normal(c, e, b, extended), path);
            && (y.Some? <==> x.Some?)
            && (x.Some? ==> y.value == Normal(c, e, x.value, extended))
    decreases |path|
  {
    if path != [] {
      match b
      case Multi(children, _, _) =>
        if path[0] < |children| {
          NormalChild(c, e, children, extended, path[0]);
          NormalPartAt(c, e, children[path[0]], extended, path[1..]);
        }
      case Single(_, _, _, _, _, _, _, message, _, _) =>
        if message.Some? && path[0] == 0 { NormalPartAt(c, e, message.value.body, extended, path[1..]); }
    }
  }

  /** For every well-formed tree that the server prints, readBody gives a tree with a part at exactly the
      same paths, and each of them is what was sent. */
  lemma EveryPartArrives(c: Conf, e: Enc, d: Dec, b: Body, extended: bool, suffix: string, path: seq<nat>)
    requires Opposite(c, e) && BodyOk(c, e, b, extended) && d.depth + 1 < MAX_LIST_DEPTH
    requires At(c, d, BodyText(e, b, extended), suffix)
    ensures var r := ReadBody(c, d);
            && r.Yes? && r.d.rest == suffix
            && var x, y := PartAt(b, path), PartAt(r.value, path);
            && (y.Some? <==> x.Some?)
            && (x.Some? ==> SamePart(c, e, x.value, y.value, extended))
  {
    hide BodyOk, BodyText, ReadBody, Normal, PartAt, SamePart;
    BodyReads(c, e, d, b, extended, suffix);
    NormalPartAt(c, e, b, extended, path);
    if PartAt(b, path).Some? { NormalPart(c, e, PartAt(b, path).value, extended); }
  }
}
