/** The IMAP wire elements of internal/imapwire: what the encoder prints and what the decoder
    accepts, as functions on the remaining input. */
module Wire {
  import opened Text

  // ---------------------------------------------------------------- decoding

  /** Who reads: a server, with the limits of its commands, or a client. A client has a decoder of encoded
      words (Options.decodeText), which may be any function. */
  datatype Conf = Conf(server: bool, maxSize: nat, literalLimit: Option<nat>, decode: string -> string)

  /** What the reader makes of a text that may hold encoded words. */
  function DecodedWord(c: Conf, s: string): (r: string) { c.decode(s) }

  const MAX_LIST_DEPTH: nat := 1000
  const MAX_INT64: nat := 0x7FFF_FFFF_FFFF_FFFF
  const MAX_UINT32: nat := 0xFFFF_FFFF

  /** A decoder's position: the input left, the bytes counted so far, the open lists. */
  datatype Dec = Dec(rest: string, read: nat, depth: nat)

  datatype Res<+T> = Yes(value: T, d: Dec) | No(d: Dec)

  predicate CanRead(c: Conf, d: Dec) {
    !(c.maxSize > 0 && d.read > c.maxSize) && d.rest != []
  }

  function Take(d: Dec, n: nat): (r: Dec)
    requires n <= |d.rest|
  {
    Dec(d.rest[n..], d.read + n, d.depth)
  }

  function Accept(c: Conf, d: Dec, b: char): (r: Res<()>)
    ensures r.Yes? ==> d.rest != [] && d.rest[0] == b && r.d == Take(d, 1)
    ensures r.No? ==> r.d == d
  {
    if CanRead(c, d) && d.rest[0] == b then Yes((), Take(d, 1)) else No(d)
  }

  /** A space, or nothing in front of a parenthesis; a space before the end of the line is
      taken but does not count. */
  function SP(c: Conf, d: Dec): (r: Res<()>)
    ensures |r.d.rest| <= |d.rest| && r.d.depth == d.depth
  {
    var a := Accept(c, d, ' ');
    if a.Yes? then
      if !CanRead(c, a.d) || a.d.rest[0] == '\r' || a.d.rest[0] == '\n' then No(a.d) else a
    else if CanRead(c, d) && d.rest[0] == '(' then Yes((), d)
    else No(d)
  }

  function Optional(c: Conf, d: Dec, b: char): (r: Dec)
    ensures |r.rest| <= |d.rest| && r.depth == d.depth
  {
    Accept(c, d, b).d
  }

  function CRLF(c: Conf, d: Dec): (r: Res<()>)
    ensures |r.d.rest| <= |d.rest| && r.d.depth == d.depth
  {
    Accept(c, Optional(c, Optional(c, d, ' '), '\r'), '\n')
  }

  datatype Class = AtomChars | AStringChars | KeyChars | DigitChars

  predicate IsControl(ch: char) { ch < 32 as char || 127 as char <= ch < 160 as char }

  predicate IsAtomChar(ch: char) {
    ch !in "(){ %*\"\\]" && !IsControl(ch)
  }

  predicate In(cls: Class, ch: char) {
    match cls
    case AtomChars => IsAtomChar(ch)
    case AStringChars => IsAtomChar(ch) || ch == ']'
    case KeyChars => ch == '*' || IsAtomChar(ch)
    case DigitChars => IsDigit(ch)
  }

  /** How many bytes of the class are read before another byte, or the end. */
  function Span(c: Conf, d: Dec, cls: Class): (n: nat)
    ensures n <= |d.rest|
    ensures forall i | 0 <= i < n :: In(cls, d.rest[i])
    decreases |d.rest|
  {
    if CanRead(c, d) && In(cls, d.rest[0]) then 1 + Span(c, Take(d, 1), cls) else 0
  }

  /** Decoder.Func: a non-empty run of the class, with something after it. */
  function Func(c: Conf, d: Dec, cls: Class): (r: Res<string>)
    ensures r.Yes? ==> |r.d.rest| < |d.rest| && r.value != []
    ensures |r.d.rest| <= |d.rest| && r.d.depth == d.depth
  {
    var n := Span(c, d, cls);
    if !CanRead(c, Take(d, n)) || n == 0 then No(Take(d, n)) else Yes(d.rest[..n], Take(d, n))
  }

  function Number(c: Conf, d: Dec, limit: nat): (r: Res<nat>)
    ensures r.Yes? ==> |r.d.rest| < |d.rest| && r.value <= limit
    ensures |r.d.rest| <= |d.rest| && r.d.depth == d.depth
  {
    var s := Func(c, d, DigitChars);
    if s.No? then No(s.d)
    else
      var n := ParseUint(s.value, limit);
      if n.None? then No(s.d) else Yes(n.value, s.d)
  }

  /** The inside of a quoted string, up to and including the closing quote. */
  function QuotedBody(c: Conf, d: Dec): (r: Res<string>)
    ensures |r.d.rest| <= |d.rest| && r.d.depth == d.depth
    decreases |d.rest|
  {
    if !CanRead(c, d) then No(d)
    else if d.rest[0] == '"' then Yes([], Take(d, 1))
    else
      var e := if d.rest[0] == '\\' then Take(d, 1) else d;
      if !CanRead(c, e) then No(e)
      else
        var r := QuotedBody(c, Take(e, 1));
        if r.No? then r else Yes([e.rest[0]] + r.value, r.d)
  }

  function Quoted(c: Conf, d: Dec): (r: Res<string>)
    ensures r.Yes? ==> |r.d.rest| < |d.rest|
    ensures |r.d.rest| <= |d.rest| && r.d.depth == d.depth
  {
    var a := Accept(c, d, '"');
    if a.No? then No(a.d) else QuotedBody(c, a.d)
  }

  /** The "{n}" or "{n+}" line in front of a literal. */
  function LiteralHead(c: Conf, d: Dec): (r: Res<nat>)
    ensures r.Yes? ==> |r.d.rest| < |d.rest|
    ensures |r.d.rest| <= |d.rest| && r.d.depth == d.depth
  {
    var a := Accept(c, d, '{');
    if a.No? then No(a.d)
    else
      var n := Number(c, a.d, MAX_INT64);
      if n.No? then No(n.d)
      else
        var e := if c.server then Optional(c, n.d, '+') else n.d;
        var b := Accept(c, e, '}');
        if b.No? then No(b.d)
        else
          var l := CRLF(c, b.d);
          if l.No? then No(l.d) else Yes(n.value, l.d)
  }

  /** Literal bytes are not counted; a literal cut short by the end of the input is accepted. */
  function Literal(c: Conf, d: Dec): (r: Res<string>)
    ensures r.Yes? ==> |r.d.rest| < |d.rest|
    ensures |r.d.rest| <= |d.rest| && r.d.depth == d.depth
  {
    var h := LiteralHead(c, d);
    if h.No? then No(h.d)
    else if c.literalLimit.Some? && h.value > c.literalLimit.value then No(h.d)
    else
      var n := if h.value <= |h.d.rest| then h.value else |h.d.rest|;
      Yes(h.d.rest[..n], h.d.(rest := h.d.rest[n..]))
  }

  function String(c: Conf, d: Dec): (r: Res<string>)
    ensures r.Yes? ==> |r.d.rest| < |d.rest|
    ensures |r.d.rest| <= |d.rest| && r.d.depth == d.depth
  {
    var q := Quoted(c, d);
    if q.Yes? then q else Literal(c, q.d)
  }

  function AString(c: Conf, d: Dec): (r: Res<string>)
    ensures r.Yes? ==> |r.d.rest| < |d.rest|
    ensures |r.d.rest| <= |d.rest| && r.d.depth == d.depth
  {
    var s := String(c, d);
    if s.Yes? then s else Func(c, s.d, AStringChars)
  }

  function NString(c: Conf, d: Dec): (r: Res<string>)
    ensures r.Yes? ==> |r.d.rest| < |d.rest|
    ensures |r.d.rest| <= |d.rest| && r.d.depth == d.depth
  {
    var a := Func(c, d, AtomChars);
    if a.No? then String(c, a.d)
    else if a.value == "NIL" then Yes("", a.d)
    else No(a.d)
  }

  // ---------------------------------------------------------------- encoding

  /** Who writes, what it may write, and how a server encodes words (mime.QEncoding): any function. */
  datatype Enc = Enc(client: bool, quotedUTF8: bool, literalMinus: bool, literalPlus: bool, encode: string -> string)

  function EncodedWord(e: Enc, s: string): (r: string) { e.encode(s) }

  predicate QuotableChar(e: Enc, ch: char) {
    ch != 0 as char && ch != '\r' && ch != '\n' && (e.quotedUTF8 || ch <= 127 as char)
  }

  predicate ValidQuoted(e: Enc, s: string) {
    |s| <= 4096 && forall i | 0 <= i < |s| :: QuotableChar(e, s[i])
  }

  function Escaped(s: string): (r: string) {
    if s == [] then []
    else Escaped(s[..|s| - 1]) + (if s[|s| - 1] == '"' || s[|s| - 1] == '\\' then ['\\'] else []) + [s[|s| - 1]]
  }

  function QuotedText(s: string): (r: string) {
    ['"'] + Escaped(s) + ['"']
  }

  predicate NonSync(e: Enc, n: nat) {
    e.client && !((!e.literalMinus || n > 4096) && !e.literalPlus)
  }

  function LiteralText(e: Enc, s: string): (r: string) {
    ['{'] + Digits(|s|) + (if NonSync(e, |s|) then ['+'] else []) + "}\r\n" + s
  }

  function StringText(e: Enc, s: string): (r: string) {
    if ValidQuoted(e, s) then QuotedText(s) else LiteralText(e, s)
  }

  function NStringText(e: Enc, s: string): (r: string) {
    if s == "" then "NIL" else StringText(e, s)
  }

  // ---------------------------------------------------------------- reading back

  /** A client writes to a server or a server to a client. */
  predicate Opposite(c: Conf, e: Enc) { c.server == e.client }

  /** The decoder stands in front of the text, with size enough to read it. */
  ghost predicate At(c: Conf, d: Dec, text: string, suffix: string) {
    d.rest == text + suffix && (c.maxSize > 0 ==> d.read + |text| <= c.maxSize)
  }

  /** From d to d2 the text was read and the suffix is left. */
  ghost predicate Past(d: Dec, d2: Dec, text: string, suffix: string) {
    d2.rest == suffix && d2.depth == d.depth && d2.read <= d.read + |text|
  }

  ghost predicate ReadsAs<T>(r: Res<T>, v: T, d: Dec, text: string, suffix: string) {
    r.Yes? && r.value == v && Past(d, r.d, text, suffix)
  }

  /** Reading a text in two parts. */
  lemma AtSplit(c: Conf, d: Dec, a: string, b: string, suffix: string)
    requires At(c, d, a + b, suffix)
    ensures At(c, d, a, b + suffix)
    ensures forall d2 | Past(d, d2, a, b + suffix) :: At(c, d2, b, suffix)
    ensures forall d2, d3 | Past(d, d2, a, b + suffix) && Past(d2, d3, b, suffix) :: Past(d, d3, a + b, suffix)
  {
    assert a + b + suffix == a + (b + suffix);
  }

  lemma AcceptReads(c: Conf, d: Dec, b: char, suffix: string)
    requires At(c, d, [b], suffix)
    ensures ReadsAs(Accept(c, d, b), (), d, [b], suffix)
  {
  }

  /** A space is read as long as the line does not end after it. */
  lemma SpaceReads(c: Conf, d: Dec, suffix: string)
    requires At(c, d, " ", suffix) && suffix != [] && suffix[0] != '\r' && suffix[0] != '\n'
    ensures ReadsAs(SP(c, d), (), d, " ", suffix)
  {
    AcceptReads(c, d, ' ', suffix);
  }

  lemma {:induction false} SpanReads(c: Conf, d: Dec, cls: Class, a: string, suffix: string)
    requires At(c, d, a, suffix) && forall i | 0 <= i < |a| :: In(cls, a[i])
    requires suffix != [] && !In(cls, suffix[0])
    ensures Span(c, d, cls) == |a|
    decreases |a|
  {
    if a == [] {
      assert d.rest == suffix;
    } else {
      assert d.rest[1..] == a[1..] + suffix;
      assert In(cls, a[0]) && d.rest[0] == a[0];
      SpanReads(c, Take(d, 1), cls, a[1..], suffix);
    }
  }

  lemma FuncReads(c: Conf, d: Dec, cls: Class, a: string, suffix: string)
    requires At(c, d, a, suffix) && a != [] && forall i | 0 <= i < |a| :: In(cls, a[i])
    requires suffix != [] && !In(cls, suffix[0])
    ensures ReadsAs(Func(c, d, cls), a, d, a, suffix)
  {
    SpanReads(c, d, cls, a, suffix);
    assert d.rest[|a|..] == suffix;
  }

  lemma NumberReads(c: Conf, d: Dec, n: nat, limit: nat, suffix: string)
    requires At(c, d, Digits(n), suffix) && n <= limit
    requires suffix != [] && !IsDigit(suffix[0])
    ensures ReadsAs(Number(c, d, limit), n, d, Digits(n), suffix)
  {
    FuncReads(c, d, DigitChars, Digits(n), suffix);
    ParseDigits(n, limit);
  }

  lemma {:induction false} EscapedFirst(s: string)
    requires s != []
    ensures Escaped(s) == (if s[0] == '"' || s[0] == '\\' then ['\\'] else []) + [s[0]] + Escaped(s[1..])
    decreases |s|
  {
    if |s| > 1 {
      var front := s[..|s| - 1];
      EscapedFirst(front);
      assert s[1..][..|s| - 2] == front[1..];
    }
  }

  lemma {:induction false} QuotedBodyReads(c: Conf, d: Dec, s: string, suffix: string)
    requires At(c, d, Escaped(s) + ['"'], suffix)
    ensures ReadsAs(QuotedBody(c, d), s, d, Escaped(s) + ['"'], suffix)
    decreases |s|
  {
    if s != [] {
      EscapedFirst(s);
      var rest := Escaped(s[1..]) + ['"'];
      var n := if s[0] == '"' || s[0] == '\\' then 2 else 1;
      assert d.rest[n..] == rest + suffix;
      QuotedBodyReads(c, Take(d, n), s[1..], suffix);
      assert [s[0]] + s[1..] == s;
    }
  }

  lemma QuotedReads(c: Conf, d: Dec, s: string, suffix: string)
    requires At(c, d, QuotedText(s), suffix)
    ensures ReadsAs(Quoted(c, d), s, d, QuotedText(s), suffix)
  {
    assert QuotedText(s) == ['"'] + (Escaped(s) + ['"']);
    AtSplit(c, d, ['"'], Escaped(s) + ['"'], suffix);
    AcceptReads(c, d, '"', Escaped(s) + ['"'] + suffix);
    QuotedBodyReads(c, Take(d, 1), s, suffix);
  }

  /** The literal's size line without the bytes. */
  function HeadText(e: Enc, n: nat): (r: string) {
    ['{'] + Digits(n) + (if NonSync(e, n) then ['+'] else []) + "}\r\n"
  }

  lemma HeadTailReads(c: Conf, e: Enc, d: Dec, n: nat, suffix: string)
    requires Opposite(c, e)
    requires At(c, d, (if NonSync(e, n) then ['+'] else []) + "}\r\n", suffix)
    ensures var d1 := if c.server then Optional(c, d, '+') else d;
            var b := Accept(c, d1, '}');
            b.Yes? && ReadsAs(CRLF(c, b.d), (), d, (if NonSync(e, n) then ['+'] else []) + "}\r\n", suffix)
  {
    var plus := if NonSync(e, n) then ['+'] else [];
    var d1 := if c.server then Optional(c, d, '+') else d;
    AtSplit(c, d, plus, "}\r\n", suffix);
    assert Past(d, d1, plus, "}\r\n" + suffix) by {
      assert [] + ("}\r\n" + suffix) == "}\r\n" + suffix;
      if NonSync(e, n) { AcceptReads(c, d, '+', "}\r\n" + suffix); }
    }
    assert "}\r\n" == ['}'] + "\r\n";
    AtSplit(c, d1, ['}'], "\r\n", suffix);
    AcceptReads(c, d1, '}', "\r\n" + suffix);
  }

  lemma HeadReads(c: Conf, e: Enc, d: Dec, n: nat, suffix: string)
    requires Opposite(c, e) && n <= MAX_INT64 && At(c, d, HeadText(e, n), suffix)
    ensures ReadsAs(LiteralHead(c, d), n, d, HeadText(e, n), suffix)
  {
    var tail := (if NonSync(e, n) then ['+'] else []) + "}\r\n";
    assert HeadText(e, n) == ['{'] + (Digits(n) + tail);
    AtSplit(c, d, ['{'], Digits(n) + tail, suffix);
    AcceptReads(c, d, '{', Digits(n) + tail + suffix);
    var d1 := Accept(c, d, '{').d;
    AtSplit(c, d1, Digits(n), tail, suffix);
    assert !IsDigit((tail + suffix)[0]);
    NumberReads(c, d1, n, MAX_INT64, tail + suffix);
    var d2 := Number(c, d1, MAX_INT64).d;
    HeadTailReads(c, e, d2, n, suffix);
  }

  /** A string the other side can take: within its literal limit. */
  predicate Sendable(c: Conf, s: string) {
    |s| <= MAX_INT64 && (c.literalLimit.Some? ==> |s| <= c.literalLimit.value)
  }

  lemma LiteralReads(c: Conf, e: Enc, d: Dec, s: string, suffix: string)
    requires Opposite(c, e) && Sendable(c, s) && At(c, d, LiteralText(e, s), suffix)
    ensures ReadsAs(Literal(c, d), s, d, LiteralText(e, s), suffix)
  {
    assert LiteralText(e, s) == HeadText(e, |s|) + s;
    AtSplit(c, d, HeadText(e, |s|), s, suffix);
    HeadReads(c, e, d, |s|, s + suffix);
    var h := LiteralHead(c, d);
    assert h.d.rest[..|s|] == s && h.d.rest[|s|..] == suffix;
  }

  /** What String writes, String reads, and leaves the rest. */
  lemma StringReads(c: Conf, e: Enc, d: Dec, s: string, suffix: string)
    requires Opposite(c, e) && Sendable(c, s) && At(c, d, StringText(e, s), suffix)
    ensures ReadsAs(String(c, d), s, d, StringText(e, s), suffix)
    ensures ReadsAs(AString(c, d), s, d, StringText(e, s), suffix)
  {
    if ValidQuoted(e, s) {
      QuotedReads(c, d, s, suffix);
    } else {
      assert d.rest[0] == '{';
      LiteralReads(c, e, d, s, suffix);
    }
  }

  lemma StringTextStart(e: Enc, s: string)
    ensures StringText(e, s) != [] && (StringText(e, s)[0] == '"' || StringText(e, s)[0] == '{')
  {
  }

  lemma NStringReads(c: Conf, e: Enc, d: Dec, s: string, suffix: string)
    requires Opposite(c, e) && Sendable(c, s) && At(c, d, NStringText(e, s), suffix)
    requires suffix != [] && !IsAtomChar(suffix[0])
    ensures ReadsAs(NString(c, d), s, d, NStringText(e, s), suffix)
  {
    if s == "" {
      assert forall i | 0 <= i < 3 :: IsAtomChar("NIL"[i]);
      FuncReads(c, d, AtomChars, "NIL", suffix);
    } else {
      StringTextStart(e, s);
      assert d.rest[0] == StringText(e, s)[0];
      assert Span(c, d, AtomChars) == 0;
      assert Take(d, 0) == d;
      StringReads(c, e, d, s, suffix);
    }
  }
}
