/** Mailbox names on the wire: Encoder.Mailbox and Decoder.ExpectMailbox of internal/imapwire. */
module MailboxName {
  import opened Text
  import opened Unicode
  import opened Utf7
  import opened Wire
  import opened Utf7Format

  const INBOX := "INBOX"

  /** The name in the alphabet of the connection. */
  function NameText(e: Enc, name: string): (r: string) {
    if e.quotedUTF8 then EscapeText(name) else EncodeText(name)
  }

  /** What Encoder.Mailbox writes. */
  function MailboxText(e: Enc, name: string): (r: string) {
    if EqualFold(name, INBOX) then INBOX else StringText(e, NameText(e, name))
  }

  /** Decoder.ExpectMailbox. */
  function ReadMailbox(c: Conf, d: Dec): (r: Res<string>)
    ensures r.Yes? ==> |r.d.rest| < |d.rest|
    ensures |r.d.rest| <= |d.rest| && r.d.depth == d.depth
  {
    var s := AString(c, d);
    if s.No? then s
    else if EqualFold(s.value, INBOX) then Yes(INBOX, s.d)
    else
      match DecodeText(s.value)
      case None => No(s.d)
      case Some(name) => Yes(name, s.d)
  }

  /** The exact condition under which a name comes back: raw UTF-8 must hold no control byte. */
  predicate Nameable(e: Enc, name: string) { EqualFold(name, INBOX) || !e.quotedUTF8 || NoControls(name) }

  /** The mailbox a name means: every casing of INBOX is INBOX. */
  function MailboxOf(name: string): (r: string) { if EqualFold(name, INBOX) then INBOX else name }

  lemma {:induction false} PlainDecodes(s: string)
    requires forall i | 0 <= i < |s| :: 'A' <= s[i] <= 'z'
    ensures DecodeText(s) == Some(s)
  {
    hide DecodeFrom, ValidUtf8, Ampersands;
    AsciiValid(s);
    NoAmpersand(s);
    AmpersandsRead(s);
  }

  lemma InboxLetters(s: string)
    requires EqualFold(s, INBOX)
    ensures forall i | 0 <= i < |s| :: 'A' <= s[i] <= 'z'
  {
    var w := Lower(INBOX);
    assert forall i | 0 <= i < |s| :: LowerChar(s[i]) == w[i];
    assert w[0] == 'i' && w[1] == 'n' && w[2] == 'b' && w[3] == 'o' && w[4] == 'x';
  }

  /** No other name is written as INBOX. */
  lemma NameTextKeepsApart(e: Enc, name: string)
    requires ValidUtf8(name) && !EqualFold(name, INBOX)
    ensures !EqualFold(NameText(e, name), INBOX)
    ensures DecodeText(NameText(e, name)) == if Nameable(e, name) then Some(name) else None
  {
    hide EqualFold, DecodeText, EscapeText, EncodeText, ValidUtf8;
    if e.quotedUTF8 { EscapeRoundTrip(name); } else { EncodeRoundTrip(name); }
    var w := NameText(e, name);
    if EqualFold(w, INBOX) {
      InboxLetters(w);
      PlainDecodes(w);
    }
  }

  lemma InboxReads(c: Conf, d: Dec, suffix: string)
    requires At(c, d, INBOX, suffix) && suffix != [] && !In(AStringChars, suffix[0])
    ensures ReadsAs(AString(c, d), INBOX, d, INBOX, suffix)
  {
    assert d.rest[0] == 'I';
    assert Quoted(c, d) == No(d) && Literal(c, d) == No(d);
    assert forall i | 0 <= i < 5 :: In(AStringChars, INBOX[i]);
    hide Quoted, Literal, Func;
    FuncReads(c, d, AStringChars, INBOX, suffix);
  }

  /** Every valid UTF-8 name the connection can carry is read back as the mailbox it means, and the
      rest of the input is left; a name that cannot be carried is refused. */
  lemma MailboxReads(c: Conf, e: Enc, d: Dec, name: string, suffix: string)
    requires Opposite(c, e) && ValidUtf8(name) && Sendable(c, NameText(e, name))
    requires suffix != [] && !In(AStringChars, suffix[0])
    requires At(c, d, MailboxText(e, name), suffix)
    ensures Nameable(e, name) ==> ReadsAs(ReadMailbox(c, d), MailboxOf(name), d, MailboxText(e, name), suffix)
    ensures !Nameable(e, name) ==> ReadMailbox(c, d).No?
  {
    hide AString, StringText, NameText, DecodeText, ValidUtf8;
    if EqualFold(name, INBOX) {
      InboxReads(c, d, suffix);
    } else {
      hide EqualFold;
      NameTextKeepsApart(e, name);
      StringReads(c, e, d, NameText(e, name), suffix);
    }
  }

  /** How a name is written: every casing of INBOX as the atom INBOX, any other name as a string, in modified
      UTF-7 or, where UTF-8 may be quoted, as it is with a dash behind every ampersand. */
  lemma MailboxForm(e: Enc, name: string, t: string)
    ensures Lower(name) == "inbox" ==> MailboxText(e, name) == "INBOX"
    ensures Lower(name) != "inbox" && !e.quotedUTF8 && Encodes(name, t) ==> MailboxText(e, name) == StringText(e, t)
    ensures Lower(name) != "inbox" && e.quotedUTF8 && ValidUtf8(name) && Dashed(name, t) ==> MailboxText(e, name) == StringText(e, t)
  {
    assert Lower("INBOX") == "inbox";
    hide StringText, Encodes, EncodeText, EscapeText, ValidUtf8, Dashed;
    EncodeExact(name, t);
    if ValidUtf8(name) && Dashed(name, t) {
      EscapeIs(name);
      DashedIs(name, t);
    }
  }

  /** t is s with a dash behind every ampersand. */
  ghost predicate Dashed(s: string, t: string)
    decreases |s|
  {
    if s == [] then t == []
    else if s[0] == '&' then |t| >= 2 && t[..2] == "&-" && Dashed(s[1..], t[2..])
    else t != [] && t[0] == s[0] && Dashed(s[1..], t[1..])
  }

  lemma {:induction false} DashedIs(s: string, t: string)
    requires Dashed(s, t)
    ensures t == Ampersands(s)
    decreases |s|
  {
    if s != [] {
      var k := if s[0] == '&' then 2 else 1;
      DashedIs(s[1..], t[k..]);
      assert t == t[..k] + t[k..];
    }
  }
}
