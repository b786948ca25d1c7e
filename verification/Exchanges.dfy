/** Whole exchanges: one side writes to an encoder, the other reads the same bytes from a decoder. */
module Exchanges {
  import opened Text
  import opened NumSet
  import opened NumSetText
  import opened Unicode
  import opened Wire
  import opened WireCodec
  import opened Criteria
  import opened SearchKeys
  import opened SearchText
  import opened SearchRoundTrip
  import opened SearchCodec
  import opened MailboxName
  import opened MailboxCodec
  import B = BodyStructure
  import R = BodyRoundTrip
  import BodyCodec
  import BodyReader
  import P = BodyParts
  import M = Mailbox

  // ---------------------------------------------------------------- SEARCH

  lemma LeafPrints(c: Conf, leaf: Leaf)
    requires LeafPrintable(c, leaf)
    ensures LeafEncodable(leaf)
  {
    hide DateText, FlagSearchKey, Canonical, PrintableDate;
    match leaf
    case SeqKey(s) => SetTextShows(s);
    case UidKey(u) => if u.Uids? { SetTextShows(u.s); }
    case FlagKey(f) => FlagShows(f);
    case UnflagKey(f) => FlagShows(f);
    case _ =>
  }

  lemma SetTextShows(s: seq<Range>)
    requires s != []
    ensures SetText(s) != ""
  {
    assert RangeText(s[0]) != "";
  }

  lemma FlagShows(f: string)
    requires FlagParses(f)
    ensures f == "\\*" || FlagChars(f)
  {
    if f != "\\*" && f[0] == '\\' {
      forall i | 1 <= i < |f| ensures IsAtomChar(f[i]) { assert f[i] == f[1..][i - 1]; }
    }
  }

  lemma {:induction false} TreeEncodable(c: Conf, t: Criteria)
    requires TreeOk(c, t)
    ensures Encodable(t)
    decreases t
  {
    hide Leaves, LeafPrintable, LeafEncodable;
    forall i | 0 <= i < |Leaves(t)| ensures LeafEncodable(Leaves(t)[i]) { LeafPrints(c, Leaves(t)[i]); }
    forall i | 0 <= i < |t.not| ensures Encodable(t.not[i]) { TreeEncodable(c, t.not[i]); }
    forall i | 0 <= i < |t.or| ensures Encodable(t.or[i].left) && Encodable(t.or[i].right) {
      TreeEncodable(c, t.or[i].left);
      TreeEncodable(c, t.or[i].right);
    }
  }

  // the sets of the criteria that the server builds

  ghost predicate FlatSetsOk(c: Criteria) {
    && (forall i | 0 <= i < |c.seqNum| :: Canonical(c.seqNum[i]))
    && (forall i | 0 <= i < |c.uid| && c.uid[i].Uids? :: Canonical(c.uid[i].s))
  }

  lemma AddLeafSets(c: Conf, acc: Criteria, leaf: Leaf)
    requires FlatSetsOk(acc) && LeafPrintable(c, leaf)
    ensures FlatSetsOk(AddLeaf(acc, leaf))
  {
    hide Canonical, ParsedFlag, ParsedField, FlagParses, PrintableDate, NextDay;
  }

  lemma {:induction false} AddLeavesSets(c: Conf, leaves: seq<Leaf>)
    requires forall i | 0 <= i < |leaves| :: LeafPrintable(c, leaves[i])
    ensures FlatSetsOk(AddLeaves(leaves))
    decreases |leaves|
  {
    if leaves != [] {
      hide LeafPrintable, FlatSetsOk, AddLeaf;
      var front := leaves[..|leaves| - 1];
      AddLeavesSets(c, front);
      AddLeafSets(c, AddLeaves(front), leaves[|leaves| - 1]);
    }
  }

  lemma {:induction false} NormalSets(c: Conf, t: Criteria)
    requires TreeOk(c, t)
    ensures SetsOk(Normal(t))
    decreases t
  {
    var r := Normal(t);
    AddLeavesSets(c, Leaves(t));
    hide Leaves, LeafPrintable, AddLeaves, Canonical;
    forall i | 0 <= i < |t.not| ensures SetsOk(r.not[i]) {
      NormalNotsAt(t, |t.not|, i);
      NormalSets(c, t.not[i]);
    }
    forall i | 0 <= i < |t.or| ensures SetsOk(r.or[i].left) && SetsOk(r.or[i].right) {
      NormalOrsAt(t, |t.or|, i);
      NormalSets(c, t.or[i].left);
      NormalSets(c, t.or[i].right);
    }
  }

  /** What the server makes of a client's SEARCH. */
  method SearchSent(e: Enc, t: Criteria) returns (r: Criteria)
    requires e.client && TreeOk(SERVER, t) && Nested(t, 999) && |KeyText(e, t)| <= SERVER.maxSize
    ensures r == Normal(t)
  {
    hide KeyText, TreeOk, Nested, ReadKeys, Encodable, Normal;
    TreeEncodable(SERVER, t);
    var enc := new Encoder(e);
    WriteSearchKey(enc, t);
    assert enc.out == KeyText(e, t);
    enc.WriteString("\r\n");
    var dec := new Decoder(SERVER, enc.out);
    CommandReads(SERVER, e, dec.State(), t, 999, "\r\n");
    var ok;
    r, ok := ReadSearchKeys(dec);
  }

  /** A client searches: the keys are written, read back by the server and tried on a message. The
      answer is the meaning of the criteria that the client holds. */
  method SearchExchange(e: Enc, t: Criteria, n: uint32, m: Message) returns (matches: bool)
    requires e.client && TreeOk(SERVER, t) && Nested(t, 999) && |KeyText(e, t)| <= SERVER.maxSize
    requires m.uid <= NumSet.MAX_UINT32
    ensures matches <==> Matches(n, m, t)
  {
    hide KeyText, TreeOk, Nested, Normal, Matches, SetsOk;
    var r := SearchSent(e, t);
    NormalSets(SERVER, t);
    TreeSizes(SERVER, t);
    NormalMeans(n, m, t);
    matches := Search(n, m, r);
  }

  // ---------------------------------------------------------------- mailbox names

  /** A name goes over the wire in front of anything that ends it. */
  method MailboxExchange(e: Enc, c: Conf, name: string, more: string) returns (r: Option<string>, rest: string)
    requires Opposite(c, e) && ValidUtf8(name) && Sendable(c, NameText(e, name))
    requires more != [] && !In(AStringChars, more[0]) && (c.maxSize > 0 ==> |MailboxText(e, name)| <= c.maxSize)
    ensures r == if Nameable(e, name) then Some(MailboxOf(name)) else None
    ensures r.Some? ==> rest == more
  {
    hide ValidUtf8, NameText, MailboxText, ReadMailbox, Nameable, MailboxOf, AString;
    var enc := new Encoder(e);
    WriteMailbox(enc, name);
    assert enc.out == MailboxText(e, name);
    enc.WriteString(more);
    var dec := new Decoder(c, enc.out);
    MailboxReads(c, e, dec.State(), name, more);
    var s, ok := ExpectMailbox(dec);
    r, rest := if ok then Some(s) else None, dec.rest;
  }

  // ---------------------------------------------------------------- body structures

  lemma {:induction false} OkPrintable(c: Conf, e: Enc, b: B.Body, extended: bool)
    requires R.BodyOk(c, e, b, extended)
    ensures BodyCodec.Printable(b, extended)
    decreases b
  {
    match b
    case Single(_, _, _, _, _, _, _, message, _, _) =>
      if message.Some? { OkPrintable(c, e, message.value.body, extended); }
    case Multi(children, _, _) =>
      forall i | 0 <= i < |children| ensures BodyCodec.Printable(children[i], extended) {
        OkPrintable(c, e, children[i], extended);
      }
  }

  /** The decoder of a client: no limits, and any decoder of encoded words. */
  function ClientConf(decode: string -> string): (c: Conf) { Conf(false, 0, None, decode) }

  /** A server sends a body structure and the client reads it. */
  method BodyExchange(e: Enc, decode: string -> string, b: B.Body, extended: bool, more: string)
    returns (r: B.Body, rest: string)
    requires !e.client && R.BodyOk(ClientConf(decode), e, b, extended)
    ensures r == R.Normal(ClientConf(decode), e, b, extended) && rest == more
    ensures forall path ::
      && (P.PartAt(r, path).Some? <==> P.PartAt(b, path).Some?)
      && (P.PartAt(b, path).Some? ==>
            P.SamePart(ClientConf(decode), e, P.PartAt(b, path).value, P.PartAt(r, path).value, extended))
  {
    var c := ClientConf(decode);
    OkPrintable(c, e, b, extended);
    hide R.BodyOk, BodyCodec.Printable, B.BodyText, B.ReadBody, R.Normal;
    var enc := new Encoder(e);
    BodyCodec.WriteBody(enc, b, extended);
    assert enc.out == B.BodyText(e, b, extended);
    enc.WriteString(more);
    var dec := new Decoder(c, enc.out);
    R.BodyReads(c, e, dec.State(), b, extended, more);
    var ok;
    r, ok := BodyReader.ExpectBody(dec);
    rest := dec.rest;
    AllParts(c, e, b, extended);
  }

  lemma AllParts(c: Conf, e: Enc, b: B.Body, extended: bool)
    ensures forall path ::
      var x, y := P.PartAt(b, path), P.PartAt(R.Normal(c, e, b, extended), path);
      (y.Some? <==> x.Some?) && (x.Some? ==> P.SamePart(c, e, x.value, y.value, extended))
  {
    hide R.Normal, P.PartAt, P.SamePart;
    forall path
      ensures var x, y := P.PartAt(b, path), P.PartAt(R.Normal(c, e, b, extended), path);
              (y.Some? <==> x.Some?) && (x.Some? ==> P.SamePart(c, e, x.value, y.value, extended))
    {
      P.NormalPartAt(c, e, b, extended, path);
      if P.PartAt(b, path).Some? { P.NormalPart(c, e, P.PartAt(b, path).value, extended); }
    }
  }

  // ---------------------------------------------------------------- STORE and SEARCH

  /** After STORE, SEARCH finds a message by a flag, in any case, exactly when the flag was given or was
      already set, as the kind of STORE has it. */
  lemma StoredFound(m: Message, given: seq<string>, f: string)
    ensures FlagHolds(m.(flags := M.Stored(m.flags, M.StoreSet, given)), f) <==> exists g | g in given :: EqualFold(f, g)
    ensures FlagHolds(m.(flags := M.Stored(m.flags, M.StoreAdd, given)), f)
            <==> FlagHolds(m, f) || exists g | g in given :: EqualFold(f, g)
    ensures FlagHolds(m.(flags := M.Stored(m.flags, M.StoreDel, given)), f)
            <==> FlagHolds(m, f) && !exists g | g in given :: EqualFold(f, g)
  {
    M.StoredFlag(m.flags, given, f);
  }
}
