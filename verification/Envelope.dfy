/** Envelopes on the wire.

    These are writeEnvelope of imapserver/fetch.go and readEnvelope of imapclient/fetch.go, with
    dates and message IDs as the texts they are sent as. Words are encoded and decoded by any functions. */
module Envelope {
  import opened Text
  import opened Wire
  import opened BodyParams

  datatype Address = Address(name: string, mailbox: string, host: string)

  /** No sender and no reply-to is the nil slice. */
  datatype Envelope = Envelope(
    date: string, subject: string,
    from: seq<Address>, sender: Option<seq<Address>>, replyTo: Option<seq<Address>>,
    to: seq<Address>, cc: seq<Address>, bcc: seq<Address>,
    inReplyTo: string, messageID: string)

  /** The six lists as they are written: sender and reply-to stand for from when they are missing. */
  function Lists(v: Envelope): (ls: seq<seq<Address>>)
    ensures |ls| == 6
  {
    [v.from, v.sender.GetOr(v.from), v.replyTo.GetOr(v.from), v.to, v.cc, v.bcc]
  }

  /** The envelope of six lists that were read; an empty list is nil. */
  function FromLists(date: string, subject: string, ls: seq<seq<Address>>, inReplyTo: string, messageID: string): (v: Envelope)
    requires |ls| == 6
  {
    Envelope(date, subject, ls[0], NilIfEmpty(ls[1]), NilIfEmpty(ls[2]), ls[3], ls[4], ls[5], inReplyTo, messageID)
  }

  function NilIfEmpty(l: seq<Address>): (r: Option<seq<Address>>) { if l == [] then None else Some(l) }

  // ---------------------------------------------------------------- fields that may be NIL

  function FieldsText(e: Enc, l: seq<string>): (r: string)
    requires l != []
  {
    NStringText(e, l[0]) + (if |l| == 1 then "" else " " + FieldsText(e, l[1..]))
  }

  /** ExpectNString, n times, with ExpectSP in between. */
  function ReadFields(c: Conf, d: Dec, n: nat): (r: Res<seq<string>>)
    ensures |r.d.rest| <= |d.rest| && r.d.depth == d.depth && (r.Yes? ==> |r.value| == n)
    decreases n
  {
    if n == 0 then Yes([], d)
    else
      var s := NString(c, d);
      if s.No? then No(s.d)
      else if n == 1 then Yes([s.value], s.d)
      else
        var sp := SP(c, s.d);
        if sp.No? then No(sp.d)
        else
          var r := ReadFields(c, sp.d, n - 1);
          if r.No? then r else Yes([s.value] + r.value, r.d)
  }

  ghost predicate AllSendable(c: Conf, l: seq<string>) { forall i | 0 <= i < |l| :: Sendable(c, l[i]) }

  lemma NStringTextStart(e: Enc, s: string)
    ensures NStringText(e, s) != [] && NStringText(e, s)[0] in "N\"{"
  {
    StringTextStart(e, s);
    hide StringText;
  }

  lemma {:induction false} FieldsRead(c: Conf, e: Enc, d: Dec, l: seq<string>, suffix: string)
    requires Opposite(c, e) && l != [] && AllSendable(c, l) && Closes(suffix)
    requires At(c, d, FieldsText(e, l), suffix)
    ensures ReadsAs(ReadFields(c, d, |l|), l, d, FieldsText(e, l), suffix)
    decreases |l|
  {
    hide NStringText, NString;
    var a := NStringText(e, l[0]);
    if |l| == 1 {
      assert l == [l[0]] && FieldsText(e, l) == a;
      NStringReads(c, e, d, l[0], suffix);
    } else {
      var rest := FieldsText(e, l[1..]);
      NStringTextStart(e, l[1]);
      AtSplit(c, d, a, " " + rest, suffix);
      NStringReads(c, e, d, l[0], " " + rest + suffix);
      var d1 := NString(c, d).d;
      AtSplit(c, d1, " ", rest, suffix);
      SpaceReads(c, d1, rest + suffix);
      FieldsRead(c, e, SP(c, d1).d, l[1..], suffix);
      assert [l[0]] + l[1..] == l;
    }
  }

  lemma FieldsTextStart(e: Enc, l: seq<string>)
    requires l != []
    ensures FieldsText(e, l) != [] && FieldsText(e, l)[0] in "N\"{"
  {
    NStringTextStart(e, l[0]);
    hide NStringText;
  }

  // ---------------------------------------------------------------- addresses

  function AddressFields(e: Enc, a: Address): (l: seq<string>) { [EncodedWord(e, a.name), "", a.mailbox, a.host] }

  function AddressText(e: Enc, a: Address): (r: string)
    ensures r != [] && r[0] == '('
  {
    "(" + (FieldsText(e, AddressFields(e, a)) + ")")
  }

  /** readAddress. */
  function ReadAddress(c: Conf, d: Dec): (r: Res<Address>)
    ensures |r.d.rest| <= |d.rest| && r.d.depth == d.depth && (r.Yes? ==> |r.d.rest| < |d.rest|)
  {
    var open := Accept(c, d, '(');
    if open.No? then No(open.d)
    else
      var l := ReadFields(c, open.d, 4);
      if l.No? then No(l.d)
      else
        var close := Accept(c, l.d, ')');
        if close.No? then No(close.d) else Yes(Address(DecodedWord(c, l.value[0]), l.value[2], l.value[3]), close.d)
  }

  function AddressesText(e: Enc, l: seq<Address>): (r: string)
    requires l != []
    ensures r != [] && r[0] == '('
  {
    AddressText(e, l[0]) + (if |l| == 1 then ")" else " " + AddressesText(e, l[1..]))
  }

  function AddressListText(e: Enc, l: seq<Address>): (r: string) { if l == [] then "NIL" else "(" + AddressesText(e, l) }

  function ReadAddresses(c: Conf, d: Dec): (r: Res<seq<Address>>)
    ensures |r.d.rest| <= |d.rest| && r.d.depth == d.depth
    decreases |d.rest|
  {
    var a := ReadAddress(c, d);
    if a.No? then No(a.d)
    else
      var close := Accept(c, a.d, ')');
      if close.Yes? then Yes([a.value], close.d)
      else
        var sp := SP(c, a.d);
        if sp.No? then No(sp.d)
        else
          var r := ReadAddresses(c, sp.d);
          if r.No? then r else Yes([a.value] + r.value, r.d)
  }

  /** readAddressList. */
  function ReadAddressList(c: Conf, d: Dec): (r: Res<seq<Address>>)
    ensures |r.d.rest| <= |d.rest| && r.d.depth == d.depth
  {
    var a := Func(c, d, AtomChars);
    if a.Yes? then (if a.value == "NIL" then Yes([], a.d) else No(a.d))
    else
      var open := Accept(c, a.d, '(');
      if open.No? then No(open.d)
      else if Accept(c, open.d, ')').Yes? then Yes([], Accept(c, open.d, ')').d)
      else if d.depth + 1 >= MAX_LIST_DEPTH then No(open.d)
      else ReadAddresses(c, open.d)
  }

  predicate AddressOk(c: Conf, e: Enc, a: Address) {
    Sendable(c, EncodedWord(e, a.name)) && Sendable(c, a.mailbox) && Sendable(c, a.host)
  }

  /** An address at the other end: its name was encoded and decoded. */
  function Received(c: Conf, e: Enc, a: Address): (r: Address) { a.(name := DecodedWord(c, EncodedWord(e, a.name))) }

  function ReceivedAll(c: Conf, e: Enc, l: seq<Address>): (r: seq<Address>)
    ensures |r| == |l|
  {
    if l == [] then [] else [Received(c, e, l[0])] + ReceivedAll(c, e, l[1..])
  }

  lemma AddressReads(c: Conf, e: Enc, d: Dec, a: Address, suffix: string)
    requires Opposite(c, e) && AddressOk(c, e, a) && At(c, d, AddressText(e, a), suffix)
    ensures ReadsAs(ReadAddress(c, d), Received(c, e, a), d, AddressText(e, a), suffix)
  {
    hide FieldsText, ReadFields, EncodedWord, DecodedWord;
    var l := AddressFields(e, a);
    var fields := FieldsText(e, l);
    AtSplit(c, d, "(", fields + ")", suffix);
    AcceptReads(c, d, '(', fields + ")" + suffix);
    var d1 := Accept(c, d, '(').d;
    AtSplit(c, d1, fields, ")", suffix);
    FieldsRead(c, e, d1, l, ")" + suffix);
    AcceptReads(c, ReadFields(c, d1, 4).d, ')', suffix);
  }

  lemma {:induction false} AddressesRead(c: Conf, e: Enc, d: Dec, l: seq<Address>, suffix: string)
    requires Opposite(c, e) && l != [] && (forall i | 0 <= i < |l| :: AddressOk(c, e, l[i])) && At(c, d, AddressesText(e, l), suffix)
    ensures ReadsAs(ReadAddresses(c, d), ReceivedAll(c, e, l), d, AddressesText(e, l), suffix)
    decreases |l|
  {
    var a := AddressText(e, l[0]);
    hide AddressText, ReadAddress, AddressOk, Received;
    if |l| == 1 {
      assert ReceivedAll(c, e, l[1..]) == [];
      assert ReceivedAll(c, e, l) == [Received(c, e, l[0])];
      AtSplit(c, d, a, ")", suffix);
      AddressReads(c, e, d, l[0], ")" + suffix);
      AcceptReads(c, ReadAddress(c, d).d, ')', suffix);
    } else {
      var rest := AddressesText(e, l[1..]);
      AtSplit(c, d, a, " " + rest, suffix);
      AddressReads(c, e, d, l[0], " " + rest + suffix);
      var d1 := ReadAddress(c, d).d;
      AtSplit(c, d1, " ", rest, suffix);
      SpaceReads(c, d1, rest + suffix);
      AddressesRead(c, e, SP(c, d1).d, l[1..], suffix);
    }
  }

  lemma SomeAddressesRead(c: Conf, e: Enc, d: Dec, l: seq<Address>, suffix: string)
    requires Opposite(c, e) && (forall i | 0 <= i < |l| :: AddressOk(c, e, l[i])) && d.depth + 1 < MAX_LIST_DEPTH
    requires l != [] && At(c, d, AddressListText(e, l), suffix) && Closes(suffix)
    ensures ReadsAs(ReadAddressList(c, d), ReceivedAll(c, e, l), d, AddressListText(e, l), suffix)
  {
    hide AddressesText, ReadAddresses, Func, AddressOk, ReceivedAll;
    var rest := AddressesText(e, l);
    NoAtom(c, d);
    AtSplit(c, d, "(", rest, suffix);
    AcceptReads(c, d, '(', rest + suffix);
    AddressesRead(c, e, Accept(c, d, '(').d, l, suffix);
  }

  lemma AddressListReads(c: Conf, e: Enc, d: Dec, l: seq<Address>, suffix: string)
    requires Opposite(c, e) && (forall i | 0 <= i < |l| :: AddressOk(c, e, l[i])) && d.depth + 1 < MAX_LIST_DEPTH
    requires At(c, d, AddressListText(e, l), suffix) && Closes(suffix)
    ensures ReadsAs(ReadAddressList(c, d), ReceivedAll(c, e, l), d, AddressListText(e, l), suffix)
  {
    assert l == [] ==> ReceivedAll(c, e, l) == [];
    hide AddressesText, ReadAddresses, Func, AddressOk, ReceivedAll;
    if l == [] {
      NilReads(c, d, suffix);
    } else {
      hide ReadAddressList;
      SomeAddressesRead(c, e, d, l, suffix);
    }
  }

  // ---------------------------------------------------------------- envelopes

  /** The address lists, each with the space behind it. */
  function ListsText(e: Enc, ls: seq<seq<Address>>): (r: string) {
    if ls == [] then "" else AddressListText(e, ls[0]) + (" " + ListsText(e, ls[1..]))
  }

  function ReadLists(c: Conf, d: Dec, n: nat): (r: Res<seq<seq<Address>>>)
    ensures |r.d.rest| <= |d.rest| && r.d.depth == d.depth && (r.Yes? ==> |r.value| == n)
    decreases n
  {
    if n == 0 then Yes([], d)
    else
      var l := ReadAddressList(c, d);
      if l.No? then No(l.d)
      else
        var sp := SP(c, l.d);
        if sp.No? then No(sp.d)
        else
          var r := ReadLists(c, sp.d, n - 1);
          if r.No? then r else Yes([l.value] + r.value, r.d)
  }

  /** writeEnvelope, from the opening to the closing parenthesis. */
  function EnvelopeText(e: Enc, v: Envelope): (r: string)
    ensures r != [] && r[0] == '('
  {
    "(" + (FieldsText(e, [v.date, EncodedWord(e, v.subject)]) + (" " + EnvelopeTail(e, v)))
  }

  function EnvelopeTail(e: Enc, v: Envelope): (r: string) {
    ListsText(e, Lists(v)) + (FieldsText(e, [v.inReplyTo, v.messageID]) + ")")
  }

  /** readEnvelope. */
  function ReadEnvelope(c: Conf, d: Dec): (r: Res<Envelope>)
    ensures |r.d.rest| <= |d.rest| && r.d.depth == d.depth
  {
    var open := Accept(c, d, '(');
    if open.No? then No(open.d)
    else
      var a := ReadFields(c, open.d, 2);
      if a.No? then No(a.d)
      else
        var sp := SP(c, a.d);
        if sp.No? then No(sp.d) else ReadEnvelopeTail(c, sp.d, a.value[0], DecodedWord(c, a.value[1]))
  }

  function ReadEnvelopeTail(c: Conf, d: Dec, date: string, subject: string): (r: Res<Envelope>)
    ensures |r.d.rest| <= |d.rest| && r.d.depth == d.depth
  {
    var ls := ReadLists(c, d, 6);
    if ls.No? then No(ls.d)
    else
      var b := ReadFields(c, ls.d, 2);
      if b.No? then No(b.d)
      else
        var close := Accept(c, b.d, ')');
        if close.No? then No(close.d)
        else Yes(FromLists(date, subject, ls.value, b.value[0], b.value[1]), close.d)
  }

  ghost predicate AllAddressesOk(c: Conf, e: Enc, l: seq<Address>) { forall i | 0 <= i < |l| :: AddressOk(c, e, l[i]) }

  ghost predicate EnvelopeOk(c: Conf, e: Enc, v: Envelope) {
    && AllSendable(c, [v.date, EncodedWord(e, v.subject)]) && AllSendable(c, [v.inReplyTo, v.messageID])
    && forall i | 0 <= i < 6 :: AllAddressesOk(c, e, Lists(v)[i])
  }

  function ReceivedLists(c: Conf, e: Enc, ls: seq<seq<Address>>): (r: seq<seq<Address>>)
    ensures |r| == |ls|
  {
    if ls == [] then [] else [ReceivedAll(c, e, ls[0])] + ReceivedLists(c, e, ls[1..])
  }

  /** An envelope at the other end: words were encoded and decoded, and a missing sender or reply-to is
      there as from. */
  function ReceivedEnvelope(c: Conf, e: Enc, v: Envelope): (r: Envelope) {
    FromLists(v.date, DecodedWord(c, EncodedWord(e, v.subject)), ReceivedLists(c, e, Lists(v)), v.inReplyTo, v.messageID)
  }

  lemma AddressListStart(e: Enc, l: seq<Address>)
    ensures AddressListText(e, l) != [] && AddressListText(e, l)[0] in "N("
  {
    hide AddressesText;
  }

  lemma ListsTextStart(e: Enc, ls: seq<seq<Address>>)
    requires ls != []
    ensures ListsText(e, ls) != [] && ListsText(e, ls)[0] in "N("
  {
    AddressListStart(e, ls[0]);
    hide AddressListText;
  }

  predicate Visible(s: string) { s != [] && s[0] != '\r' && s[0] != '\n' }

  lemma ListReadsOne(c: Conf, e: Enc, d: Dec, l: seq<Address>, rest: string, suffix: string) returns (d1: Dec, d2: Dec)
    requires Opposite(c, e) && AllAddressesOk(c, e, l) && d.depth + 1 < MAX_LIST_DEPTH && Visible(rest + suffix)
    requires At(c, d, AddressListText(e, l) + (" " + rest), suffix)
    ensures ReadAddressList(c, d) == Yes(ReceivedAll(c, e, l), d1) && SP(c, d1) == Yes((), d2) && d2.depth == d.depth
    ensures At(c, d2, rest, suffix)
    ensures forall d3 | Past(d2, d3, rest, suffix) :: Past(d, d3, AddressListText(e, l) + (" " + rest), suffix)
  {
    hide AddressListText, ReadAddressList, AddressOk, ReceivedAll;
    var a := AddressListText(e, l);
    AtSplit(c, d, a, " " + rest, suffix);
    assert Closes(" " + rest + suffix);
    AddressListReads(c, e, d, l, " " + rest + suffix);
    d1 := ReadAddressList(c, d).d;
    AtSplit(c, d1, " ", rest, suffix);
    SpaceReads(c, d1, rest + suffix);
    d2 := SP(c, d1).d;
  }

  lemma {:induction false} ListsRead(c: Conf, e: Enc, d: Dec, ls: seq<seq<Address>>, suffix: string)
    requires Opposite(c, e) && (forall i | 0 <= i < |ls| :: AllAddressesOk(c, e, ls[i])) && d.depth + 1 < MAX_LIST_DEPTH
    requires At(c, d, ListsText(e, ls), suffix) && Visible(suffix)
    ensures ReadsAs(ReadLists(c, d, |ls|), ReceivedLists(c, e, ls), d, ListsText(e, ls), suffix)
    decreases |ls|
  {
    hide AddressListText, ReadAddressList, AllAddressesOk, ReceivedAll;
    if ls == [] {
      assert d.rest == suffix;
    } else {
      var rest := ListsText(e, ls[1..]);
      assert Visible(rest + suffix) by {
        if |ls| > 1 { ListsTextStart(e, ls[1..]); } else { assert rest + suffix == suffix; }
      }
      var d1, d2 := ListReadsOne(c, e, d, ls[0], rest, suffix);
      ListsRead(c, e, d2, ls[1..], suffix);
    }
  }

  lemma EnvelopeTailReads(c: Conf, e: Enc, d: Dec, v: Envelope, subject: string, suffix: string)
    requires Opposite(c, e) && EnvelopeOk(c, e, v) && d.depth + 1 < MAX_LIST_DEPTH && At(c, d, EnvelopeTail(e, v), suffix)
    ensures ReadsAs(ReadEnvelopeTail(c, d, v.date, subject),
                    FromLists(v.date, subject, ReceivedLists(c, e, Lists(v)), v.inReplyTo, v.messageID),
                    d, EnvelopeTail(e, v), suffix)
  {
    hide ListsText, ReadLists, FieldsText, ReadFields, AllAddressesOk, AllSendable, ReceivedLists, Lists, FromLists;
    var l, ls := [v.inReplyTo, v.messageID], Lists(v);
    var fields := FieldsText(e, l);
    FieldsTextStart(e, l);
    AtSplit(c, d, ListsText(e, ls), fields + ")", suffix);
    ListsRead(c, e, d, ls, fields + ")" + suffix);
    var d1 := ReadLists(c, d, 6).d;
    AtSplit(c, d1, fields, ")", suffix);
    FieldsRead(c, e, d1, l, ")" + suffix);
    AcceptReads(c, ReadFields(c, d1, 2).d, ')', suffix);
  }

  /** An envelope is read back field by field, with its words decoded. */
  lemma EnvelopeReads(c: Conf, e: Enc, d: Dec, v: Envelope, suffix: string)
    requires Opposite(c, e) && EnvelopeOk(c, e, v) && d.depth + 1 < MAX_LIST_DEPTH && At(c, d, EnvelopeText(e, v), suffix)
    ensures ReadsAs(ReadEnvelope(c, d), ReceivedEnvelope(c, e, v), d, EnvelopeText(e, v), suffix)
  {
    ListsTextStart(e, Lists(v));
    hide ListsText, FieldsText, ReadFields, ReadEnvelopeTail, AllSendable, DecodedWord, EncodedWord, ReceivedLists, FromLists;
    var l, tail := [v.date, EncodedWord(e, v.subject)], EnvelopeTail(e, v);
    var fields := FieldsText(e, l);
    assert Visible(tail + suffix);
    assert AllSendable(c, l);
    hide EnvelopeTail, EnvelopeOk, Lists;
    AtSplit(c, d, "(", fields + (" " + tail), suffix);
    AcceptReads(c, d, '(', fields + (" " + tail) + suffix);
    var d1 := Accept(c, d, '(').d;
    AtSplit(c, d1, fields, " " + tail, suffix);
    FieldsRead(c, e, d1, l, " " + tail + suffix);
    var d2 := ReadFields(c, d1, 2).d;
    AtSplit(c, d2, " ", tail, suffix);
    SpaceReads(c, d2, tail + suffix);
    EnvelopeTailReads(c, e, SP(c, d2).d, v, DecodedWord(c, l[1]), suffix);
  }
}
