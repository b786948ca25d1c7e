/** Encoder.Mailbox and Decoder.ExpectMailbox of internal/imapwire at work
    on the encoder and the decoder objects of WireCodec.
    The functions that they compute are those of MailboxName. */
module MailboxCodec {
  import opened Text
  import opened Utf7
  import opened Utf7Codec
  import opened Wire
  import opened WireCodec
  import opened MailboxName

  /** Encoder.Mailbox. */
  method WriteMailbox(enc: Encoder, name: string)
    modifies enc
    ensures enc.err == old(enc.err) && (!enc.err ==> enc.out == old(enc.out) + MailboxText(enc.conf, name))
  {
    hide EqualFold, StringText, EscapeText, EncodeText;
    if EqualFold(name, "INBOX") {
      enc.WriteString("INBOX");
    } else {
      var text;
      if enc.conf.quotedUTF8 { text := Escape(name); } else { text := Encode(name); }
      enc.Write(text);
    }
  }

  /** Decoder.ExpectMailbox. */
  method ExpectMailbox(dec: Decoder) returns (name: string, ok: bool)
    modifies dec
    ensures ok == ReadMailbox(dec.conf, old(dec.State())).Yes? && dec.State() == ReadMailbox(dec.conf, old(dec.State())).d
    ensures ok ==> name == ReadMailbox(dec.conf, old(dec.State())).value
    ensures (old(dec.err) ==> dec.err) && (!ok ==> dec.err)
  {
    hide EqualFold, AString, DecodeText;
    name, ok := dec.ExpectAString();
    if !ok { return; }
    if EqualFold(name, "INBOX") { return "INBOX", true; }
    var r := Decode(name);
    ok := dec.Expect(r.Some?);
    if ok { name := r.value; }
  }
}
