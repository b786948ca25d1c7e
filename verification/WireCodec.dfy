/** The decoder and the encoder of internal/imapwire as objects.
    The methods are loops over the fields of these objects and are
    proved against the functions of the module Wire, which take the
    remaining input as a value. */
module WireCodec {
  import opened Text
  import opened Wire

  /** The bytes read one at a time, with the error that sticks once it is set. */
  class Decoder {
    const conf: Conf
    var rest: string
    var readBytes: nat
    var listDepth: nat
    var err: bool

    constructor (conf: Conf, input: string)
      ensures this.conf == conf && State() == Dec(input, 0, 0) && !err
    {
      this.conf := conf;
      rest, readBytes, listDepth, err := input, 0, 0, false;
    }

    ghost function State(): (d: Dec)
      reads this
    {
      Dec(rest, readBytes, listDepth)
    }

    method ReadByte() returns (b: char, ok: bool)
      modifies this
      ensures ok == CanRead(conf, old(State()))
      ensures ok ==> b == old(rest[0]) && State() == Take(old(State()), 1)
      ensures !ok ==> State() == old(State())
      ensures err == (old(err) || !ok)
    {
      b := 0 as char;
      if conf.maxSize > 0 && readBytes > conf.maxSize {
        err, ok := true, false;
      } else if rest == [] {
        err, ok := true, false;
      } else {
        b, ok := rest[0], true;
        rest, readBytes := rest[1..], readBytes + 1;
      }
    }

    /** mustUnreadByte, which can only follow a byte that was read. */
    method UnreadByte(b: char)
      requires readBytes > 0
      modifies this
      ensures State() == Dec([b] + old(rest), old(readBytes) - 1, old(listDepth)) && err == old(err)
    {
      rest, readBytes := [b] + rest, readBytes - 1;
    }

    method AcceptByte(want: char) returns (ok: bool)
      modifies this
      ensures ok == Accept(conf, old(State()), want).Yes? && State() == Accept(conf, old(State()), want).d
      ensures old(err) ==> err
    {
      var got;
      got, ok := ReadByte();
      if ok && got != want {
        UnreadByte(got);
        assert State() == old(State());
        ok := false;
      }
    }

    method Expect(ok: bool) returns (r: bool)
      modifies this
      ensures r == ok && State() == old(State()) && err == (old(err) || !ok)
    {
      if !ok { err := true; }
      r := ok;
    }

    /** The byte that comes next, left in place. */
    method Peek() returns (b: char, ok: bool)
      modifies this
      ensures ok == CanRead(conf, old(State())) && State() == old(State()) && (ok ==> b == rest[0])
      ensures old(err) ==> err
    {
      b, ok := ReadByte();
      if ok {
        UnreadByte(b);
        assert State() == old(State());
      }
    }

    method ReadSP() returns (ok: bool)
      modifies this
      ensures ok == SP(conf, old(State())).Yes? && State() == SP(conf, old(State())).d
      ensures old(err) ==> err
    {
      var space := AcceptByte(' ');
      var b, more := Peek();
      if !more { return false; }
      ok := if space then b != '\r' && b != '\n' else b == '(';
    }

    method ExpectSP() returns (ok: bool)
      modifies this
      ensures ok == SP(conf, old(State())).Yes? && State() == SP(conf, old(State())).d
      ensures (old(err) ==> err) && (!ok ==> err)
    {
      ok := ReadSP();
      ok := Expect(ok);
    }

    method ReadCRLF() returns (ok: bool)
      modifies this
      ensures ok == CRLF(conf, old(State())).Yes? && State() == CRLF(conf, old(State())).d
      ensures old(err) ==> err
    {
      var space := AcceptByte(' ');
      var cr := AcceptByte('\r');
      ok := AcceptByte('\n');
    }

    /** The loop of Func and numberStr. */
    method ReadFunc(cls: Class) returns (s: string, ok: bool)
      modifies this
      ensures ok == Func(conf, old(State()), cls).Yes? && State() == Func(conf, old(State()), cls).d
      ensures ok ==> s == Func(conf, old(State()), cls).value
      ensures old(err) ==> err
    {
      hide Span, In;
      ghost var d := State();
      s := [];
      assert Take(d, 0) == d;
      while true
        invariant |s| <= |d.rest| && State() == Take(d, |s|) && s == d.rest[..|s|] && (old(err) ==> err)
        invariant |s| + Span(conf, State(), cls) == Span(conf, d, cls)
        decreases |rest|
      {
        SpanStep(conf, State(), cls);
        var b, more := ReadByte();
        if !more { return s, false; }
        if !In(cls, b) {
          UnreadByte(b);
          assert State() == Take(d, |s|);
          break;
        }
        s := s + [b];
      }
      ok := s != [];
    }

    method ReadNumber(limit: nat) returns (n: nat, ok: bool)
      modifies this
      ensures ok == Number(conf, old(State()), limit).Yes? && State() == Number(conf, old(State()), limit).d
      ensures ok ==> n == Number(conf, old(State()), limit).value
      ensures old(err) ==> err
    {
      var s;
      s, ok := ReadFunc(DigitChars);
      n := 0;
      if !ok { return; }
      var v := ParseUint(s, limit);
      ok := v.Some?;
      if ok { n := v.value; }
    }

    method ReadQuoted() returns (s: string, ok: bool)
      modifies this
      ensures ok == Quoted(conf, old(State())).Yes? && State() == Quoted(conf, old(State())).d
      ensures ok ==> s == Quoted(conf, old(State())).value
      ensures old(err) ==> err
    {
      hide QuotedBody, After;
      s := [];
      ok := AcceptByte('"');
      if !ok { return; }
      ghost var d := State();
      AfterConcat("", "", QuotedBody(conf, d));
      while true
        invariant After(s, QuotedBody(conf, State())) == QuotedBody(conf, d) && (old(err) ==> err)
        decreases |rest|
      {
        QuotedStep(conf, s, State());
        var ch, more := ReadByte();
        if !more { return s, false; }
        if ch == '"' { break; }
        if ch == '\\' {
          ch, more := ReadByte();
          if !more { return s, false; }
        }
        s := s + [ch];
      }
    }

    /** LiteralReader: the line in front of a literal. */
    method ReadLiteralHead() returns (n: nat, ok: bool)
      modifies this
      ensures ok == LiteralHead(conf, old(State())).Yes? && State() == LiteralHead(conf, old(State())).d
      ensures ok ==> n == LiteralHead(conf, old(State())).value
      ensures old(err) ==> err
    {
      hide Number, CRLF;
      n := 0;
      ok := AcceptByte('{');
      if !ok { return; }
      n, ok := ReadNumber(MAX_INT64);
      ok := Expect(ok);
      if !ok { return; }
      if conf.server { var plus := AcceptByte('+'); }
      ok := AcceptByte('}');
      ok := Expect(ok);
      if !ok { return; }
      ok := ReadCRLF();
      ok := Expect(ok);
    }

    method ReadLiteral() returns (s: string, ok: bool)
      modifies this
      ensures ok == Literal(conf, old(State())).Yes? && State() == Literal(conf, old(State())).d
      ensures ok ==> s == Literal(conf, old(State())).value
      ensures old(err) ==> err
    {
      hide LiteralHead;
      s := [];
      var n;
      n, ok := ReadLiteralHead();
      if !ok { return; }
      if conf.literalLimit.Some? && n > conf.literalLimit.value { return s, false; }
      var k := if n <= |rest| then n else |rest|;
      s, rest := rest[..k], rest[k..];
    }

    method ReadString() returns (s: string, ok: bool)
      modifies this
      ensures ok == String(conf, old(State())).Yes? && State() == String(conf, old(State())).d
      ensures ok ==> s == String(conf, old(State())).value
      ensures old(err) ==> err
    {
      hide Quoted, Literal;
      s, ok := ReadQuoted();
      if !ok { s, ok := ReadLiteral(); }
    }

    method ExpectString() returns (s: string, ok: bool)
      modifies this
      ensures ok == String(conf, old(State())).Yes? && State() == String(conf, old(State())).d
      ensures ok ==> s == String(conf, old(State())).value
      ensures (old(err) ==> err) && (!ok ==> err)
    {
      s, ok := ReadString();
      ok := Expect(ok);
    }

    method ExpectAString() returns (s: string, ok: bool)
      modifies this
      ensures ok == AString(conf, old(State())).Yes? && State() == AString(conf, old(State())).d
      ensures ok ==> s == AString(conf, old(State())).value
      ensures (old(err) ==> err) && (!ok ==> err)
    {
      hide Quoted, Literal, Func;
      s, ok := ReadQuoted();
      if ok { return; }
      s, ok := ReadLiteral();
      if ok { return; }
      s, ok := ReadFunc(AStringChars);
      ok := Expect(ok);
    }

    method ExpectNString() returns (s: string, ok: bool)
      modifies this
      ensures ok == NString(conf, old(State())).Yes? && State() == NString(conf, old(State())).d
      ensures ok ==> s == NString(conf, old(State())).value
      ensures (old(err) ==> err) && (!ok ==> err)
    {
      hide String, Func;
      s, ok := ReadFunc(AtomChars);
      if ok {
        ok := Expect(s == "NIL");
        s := "";
      } else {
        s, ok := ExpectString();
      }
    }
  }

  lemma SpanStep(c: Conf, d: Dec, cls: Class)
    ensures Span(c, d, cls) == if CanRead(c, d) && In(cls, d.rest[0]) then 1 + Span(c, Take(d, 1), cls) else 0
  {
  }

  /** A result with more in front of its value. */
  ghost function After<T>(s: seq<T>, r: Res<seq<T>>): (q: Res<seq<T>>) {
    if r.No? then r else Yes(s + r.value, r.d)
  }

  /** A reader gave what the function says, or failed where it says so. */
  ghost predicate Same<T>(ok: bool, v: T, d: Dec, r: Res<T>) {
    ok == r.Yes? && (ok ==> v == r.value && d == r.d)
  }

  lemma AfterConcat<T>(a: seq<T>, b: seq<T>, r: Res<seq<T>>)
    ensures After(a, After(b, r)) == After(a + b, r) && After([], r) == r
  {
    if r.Yes? { assert a + (b + r.value) == (a + b) + r.value && [] + r.value == r.value; }
  }

  /** One round of the loop of Quoted, behind the text s. */
  lemma QuotedStep(c: Conf, s: string, d: Dec)
    ensures !CanRead(c, d) ==> After(s, QuotedBody(c, d)) == No(d)
    ensures CanRead(c, d) && d.rest[0] == '"' ==> After(s, QuotedBody(c, d)) == Yes(s, Take(d, 1))
    ensures CanRead(c, d) && d.rest[0] != '"' && d.rest[0] != '\\' ==>
      After(s, QuotedBody(c, d)) == After(s + [d.rest[0]], QuotedBody(c, Take(d, 1)))
    ensures CanRead(c, d) && d.rest[0] == '\\' && !CanRead(c, Take(d, 1)) ==>
      After(s, QuotedBody(c, d)) == No(Take(d, 1))
    ensures CanRead(c, d) && d.rest[0] == '\\' && CanRead(c, Take(d, 1)) ==>
      After(s, QuotedBody(c, d)) == After(s + [Take(d, 1).rest[0]], QuotedBody(c, Take(Take(d, 1), 1)))
  {
    assert s + [] == s;
    if CanRead(c, d) {
      AfterConcat(s, [d.rest[0]], QuotedBody(c, Take(d, 1)));
      if CanRead(c, Take(d, 1)) {
        AfterConcat(s, [Take(d, 1).rest[0]], QuotedBody(c, Take(Take(d, 1), 1)));
      }
    }
  }

  lemma Assoc(a: string, b: string, c: string)
    ensures a + b + c == a + (b + c)
  {
  }

  lemma Chain4(o: string, a: string, b: string, c: string, d: string)
    ensures o + a + b + c + d == o + (a + (b + (c + d)))
  {
    Assoc(o + a + b, c, d);
    Assoc(o + a, b, c + d);
    Assoc(o, a, b + (c + d));
  }

  lemma Chain6(o: string, a: string, b: string, c: string, d: string, e: string, f: string)
    ensures o + a + b + c + d + e + f == o + (a + (b + (c + (d + (e + f)))))
  {
    Assoc(o + a + b + c + d, e, f);
    Assoc(o + a + b + c, d, e + f);
    Chain4(o, a, b, c, d + (e + f));
  }

  /** What is written; after an error nothing more is. A synchronizing literal is taken to be granted. */
  class Encoder {
    const conf: Enc
    var out: string
    var err: bool

    constructor (conf: Enc)
      ensures this.conf == conf && out == "" && !err
    {
      this.conf := conf;
      out, err := "", false;
    }

    method WriteString(s: string)
      modifies this
      ensures err == old(err) && out == old(out) + if err then "" else s
    {
      if !err { out := out + s; }
    }

    method Quote(s: string)
      modifies this
      ensures err == old(err) && (!err ==> out == old(out) + QuotedText(s))
    {
      var sb := ['"'];
      var i := 0;
      while i < |s|
        invariant i <= |s| && sb == ['"'] + Escaped(s[..i])
        modifies {}
      {
        var ch := s[i];
        assert s[..i + 1][..i] == s[..i];
        if ch == '"' || ch == '\\' { sb := sb + ['\\']; }
        sb := sb + [ch];
        i := i + 1;
      }
      assert s[..i] == s;
      WriteString(sb + ['"']);
    }

    method Quotable(s: string) returns (ok: bool)
      ensures ok == ValidQuoted(conf, s)
    {
      if |s| > 4096 { return false; }
      var i := 0;
      while i < |s|
        invariant i <= |s| && forall k | 0 <= k < i :: QuotableChar(conf, s[k])
      {
        var ch := s[i];
        if ch == 0 as char || ch == '\r' || ch == '\n' { return false; }
        if !conf.quotedUTF8 && ch > 127 as char { return false; }
        i := i + 1;
      }
      ok := true;
    }

    method WriteLiteral(s: string)
      modifies this
      ensures err == old(err) && (!err ==> out == old(out) + LiteralText(conf, s))
    {
      var sync := conf.client && (!conf.literalMinus || |s| > 4096) && !conf.literalPlus;
      WriteString("{");
      WriteString(Digits(|s|));
      if !sync && conf.client { WriteString("+"); }
      WriteString("}");
      WriteString("\r\n");
      WriteString(s);
    }

    method Write(s: string)
      modifies this
      ensures err == old(err) && (!err ==> out == old(out) + StringText(conf, s))
    {
      hide Escaped, Digits;
      var ok := Quotable(s);
      if ok { Quote(s); } else { WriteLiteral(s); }
    }

    /** writeNString of imapserver/fetch.go. */
    method WriteNString(s: string)
      modifies this
      ensures err == old(err) && (!err ==> out == old(out) + NStringText(conf, s))
    {
      if s == "" { WriteString("NIL"); } else { Write(s); }
    }
  }
}
