/** The loops and buffers of internal/utf7.

    Encode, Decode and their helpers as the code has them, proved against the functions of
    Utf7. */
module Utf7Codec {
  import opened Text
  import opened Unicode
  import opened Utf7

  // ---------------------------------------------------------------- Encode

  lemma {:induction false} RunIs(s: string, n: nat)
    requires n <= |s| && (n < |s| ==> Printable(s[n])) && forall i | 0 <= i < n :: !Printable(s[i])
    ensures RunLength(s) == n
    decreases n
  {
    if n > 0 { RunIs(s[1..], n - 1); }
  }

  lemma RuneUtf16(s: string)
    requires s != []
    ensures Utf16s(Runes(s)) == Utf16(DecodeRune(s).value) + Utf16s(Runes(s[DecodeRune(s).size..]))
  {
    hide DecodeRune, Utf16;
    assert Runes(s)[1..] == Runes(s[DecodeRune(s).size..]);
  }

  /** The byte loop of encode. */
  method ToUtf16(run: string) returns (b: string)
    ensures b == Utf16s(Runes(run))
  {
    hide DecodeRune, Utf16s, Runes;
    var s := run;
    b := [];
    while s != []
      invariant b + Utf16s(Runes(s)) == Utf16s(Runes(run))
      decreases |s|
    {
      RuneUtf16(s);
      var d := DecodeRune(s);
      var r := d.value;
      ghost var was := b;
      s := s[d.size..];
      if r >= 0x10000 {
        var hi, lo := 0xD800 + (r - 0x10000) / 1024, 0xDC00 + (r - 0x10000) % 1024;
        b := b + [(hi / 256) as char, (hi % 256) as char];
        r := lo;
      }
      b := b + [(r / 256) as char, (r % 256) as char];
      assert b == was + Utf16(d.value);
    }
    EmptyUtf16();
  }

  lemma EmptyUtf16()
    ensures Utf16s(Runes([])) == []
  {
  }

  /** encode. */
  method EncodeBytes(run: string) returns (r: string)
    ensures r == Shifted(run)
  {
    var b := ToUtf16(run);
    hide Utf16s, Runes;
    B64Length(b);
    hide B64Encode;
    var n := (|b| + 2) / 3 * 4 + 2;
    var b64 := new char[n];
    var text := B64Encode(b);
    forall i | 0 <= i < |text| { b64[i + 1] := text[i]; }
    n := n - (2 - (|b| + 2) % 3);
    b64[0] := '&';
    b64[n - 1] := '-';
    r := b64[..n];
    assert r == ['&'] + text[..n - 2] + ['-'];
  }

  /** Encode. */
  /** Where the run of unprintable bytes that starts at start ends. */
  method RunEnd(src: string, start: nat) returns (i: nat)
    requires start < |src| && !Printable(src[start])
    ensures start < i <= |src| && (forall k | start <= k < i :: !Printable(src[k]))
    ensures i < |src| ==> Printable(src[i])
  {
    i := start + 1;
    while i < |src| && !Printable(src[i])
      invariant start < i <= |src| && forall k | start <= k < i :: !Printable(src[k])
    {
      i := i + 1;
    }
  }

  method Encode(src: string) returns (sb: string)
    ensures sb == EncodeText(src)
  {
    hide EncodeText, Shifted;
    sb := [];
    var i := 0;
    assert src[0..] == src;
    while i < |src|
      invariant i <= |src| && sb + EncodeText(src[i..]) == EncodeText(src)
    {
      var ch := src[i];
      if Printable(ch) {
        EncodePlain(src[i..]);
        assert src[i..][1..] == src[i + 1..];
        sb := sb + [ch];
        if ch == '&' { sb := sb + "-"; }
        i := i + 1;
      } else {
        var start := i;
        i := RunEnd(src, start);
        RunIs(src[start..], i - start);
        EncodeRun(src[start..], i - start);
        assert src[start..][..i - start] == src[start..i] && src[start..][i - start..] == src[i..];
        var run := EncodeBytes(src[start..i]);
        sb := sb + run;
      }
    }
    EmptyEncode();
    assert src[i..] == [];
  }

  lemma EmptyEncode()
    ensures EncodeText([]) == [] && EscapeText([]) == []
  {
  }

  lemma EscapeStep(s: string)
    requires s != []
    ensures EscapeText(s) == EncodeRune(DecodeRune(s).value) + (if DecodeRune(s).value == '&' as nat then "-" else "")
                           + EscapeText(s[DecodeRune(s).size..])
  {
    hide DecodeRune, EncodeRune;
  }

  /** Escape. */
  method Escape(src: string) returns (sb: string)
    ensures sb == EscapeText(src)
  {
    hide DecodeRune, EncodeRune, EscapeText;
    sb := [];
    var i := 0;
    assert src[0..] == src;
    while i < |src|
      invariant i <= |src| && sb + EscapeText(src[i..]) == EscapeText(src)
    {
      EscapeStep(src[i..]);
      var r := DecodeRune(src[i..]);
      sb := sb + EncodeRune(r.value);
      if r.value == '&' as nat { sb := sb + "-"; }
      assert src[i..][r.size..] == src[i + r.size..];
      i := i + r.size;
    }
    EmptyEncode();
    assert src[i..] == [];
  }

  // ---------------------------------------------------------------- Decode

  /** utf8.EncodeRune into a buffer, from position at on. */
  method PutRune(b: array<char>, ghost lo: nat, at: nat, r: nat) returns (n: nat)
    requires IsScalar(r) && lo <= at && at + |EncodeRune(r)| <= b.Length
    modifies b
    ensures n == |EncodeRune(r)|
    ensures b[..lo] == old(b[..lo]) && b[lo..at + n] == old(b[lo..at]) + EncodeRune(r)
  {
    hide EncodeRune;
    var e := EncodeRune(r);
    n := |e|;
    forall k | 0 <= k < n { b[at + k] := e[k]; }
  }

  lemma FromUtf16Step(u: string)
    requires |u| >= 2 && Units(u) && !(0xD800 <= Word(u, 0) < 0xE000)
    ensures Units(u[2..])
    ensures FromUtf16(u) == if IsPrintable(Word(u, 0)) then None else Prepend(EncodeRune(Word(u, 0)), FromUtf16(u[2..]))
  {
    hide EncodeRune, Word;
  }

  lemma FromUtf16Lone(u: string)
    requires |u| >= 2 && Units(u) && 0xD800 <= Word(u, 0) < 0xE000
    requires |u| == 2 || Word(u, 0) >= 0xDC00 || !(0xDC00 <= Word(u, 2) < 0xE000)
    ensures FromUtf16(u) == None
  {
    hide EncodeRune, Word;
  }

  /** The first code point of the UTF-16 bytes in block[at..end], and its width. */
  method NextRune(block: array<char>, at: nat, end: nat, ghost u: string) returns (r: Option<nat>, width: nat)
    requires end == at + |u| <= block.Length && u == block[at..end] && u != [] && Units(u)
    ensures r == None ==> FromUtf16(u) == None
    ensures r.Some? ==>
      && (width == 2 || width == 4) && width <= |u| && Units(u[width..]) && IsScalar(r.value)
      && 2 * |EncodeRune(r.value)| <= 3 * width
      && FromUtf16(u) == Prepend(EncodeRune(r.value), FromUtf16(u[width..]))
  {
    hide FromUtf16, EncodeRune, Prepend;
    width := 2;
    assert block[at] == u[0] && block[at + 1] == u[1];
    var r1 := block[at] as nat * 256 + block[at + 1] as nat;
    assert r1 == Word(u, 0);
    if 0xD800 <= r1 < 0xE000 {
      r := None;
      if at + width == end { FromUtf16Lone(u); return; }
      assert block[at + 2] == u[2] && block[at + 3] == u[3];
      var r2 := block[at + 2] as nat * 256 + block[at + 3] as nat;
      assert r2 == Word(u, 2);
      if !(r1 < 0xDC00 && 0xDC00 <= r2 < 0xE000) { FromUtf16Lone(u); return; }
      FromUtf16Pair(u, r1, r2);
      r, width := Some((r1 - 0xD800) * 1024 + (r2 - 0xDC00) + 0x10000), 4;
    } else {
      FromUtf16Step(u);
      RuneWidth(r1);
      r := if IsPrintable(r1) then None else Some(r1);
    }
  }

  /** The last loop of decode. The UTF-16 bytes occupy the first n places of a region that starts at
      base, and the UTF-8 bytes are written behind them: the region is always large enough. */
  method Transcode(block: array<char>, base: nat, n: nat) returns (r: Option<string>)
    requires base + 3 * n <= block.Length && Units(block[base..base + n])
    modifies block
    ensures r == FromUtf16(old(block[base..base + n]))
  {
    hide FromUtf16, EncodeRune, Prepend, Units;
    ghost var b := block[base..base + n];
    ghost var out, pre := "", block[..base + n];
    assert b[0..] == b;
    PrependConcat("", "", FromUtf16(b));
    var i: nat, j: nat := 0, 0;
    while i < n
      invariant i <= n && 2 * j <= 3 * i
      invariant block[..base + n] == pre
      invariant block[base + n..base + n + j] == out && Units(b[i..]) && Prepend(out, FromUtf16(b[i..])) == FromUtf16(b)
    {
      ghost var u := b[i..];
      assert u == pre[base + i..] == block[base + i..base + n];
      var c, width := NextRune(block, base + i, base + n, u);
      if c == None { PrependNone(out); return None; }
      i := i + width;
      assert u[width..] == b[i..];
      PrependConcat(out, EncodeRune(c.value), FromUtf16(b[i..]));
      var k := PutRune(block, base + n, base + n + j, c.value);
      out := out + EncodeRune(c.value);
      j := j + k;
    }
    assert b[i..] == [];
    EmptyFromUtf16(out);
    r := Some(block[base + n..base + n + j]);
  }

  lemma PrependNone(a: string)
    ensures Prepend(a, None) == None
  {
  }

  lemma RuneWidth(r: nat)
    requires IsScalar(r) && r < 0x10000
    ensures |EncodeRune(r)| <= 3
  {
  }

  lemma EmptyFromUtf16(a: string)
    ensures Prepend(a, FromUtf16([])) == Some(a)
  {
    assert a + [] == a;
  }

  /** The allocation of decode: room for three times the decoded length, behind the padded base64
      when padding is needed. */
  method Allocate(b64: string) returns (block: array<char>, base: nat, text: string)
    ensures fresh(block) && text == Padded(b64) && block.Length == base + |text| / 4 * 3 * 3
  {
    var n := |b64|;
    text, base := b64, 0;
    if n % 4 == 0 {
      block := new char[n / 4 * 3 * 3];
    } else {
      n := n + 4 - n % 4;
      block := new char[n + n / 4 * 3 * 3](_ => 0 as char);
      forall k | 0 <= k < |b64| { block[k] := b64[k]; }
      forall k | |b64| <= k < if |b64| + 2 < n then |b64| + 2 else n { block[k] := '='; }
      text, base := block[..n], n;
      assert text[..|b64|] == b64;
      assert text == b64 + text[|b64|..];
    }
  }

  /** decode: one allocation holds the padded base64, the UTF-16 bytes and the UTF-8 bytes. */
  method DecodeSegment(b64: string) returns (r: Option<string>)
    requires b64 != [] && '\r' !in b64 && '\n' !in b64
    ensures r == SegmentText(b64)
  {
    hide B64Decode, FromUtf16, Padded;
    if b64[|b64| - 1] == '=' { return None; }
    var block, base, text := Allocate(b64);
    var bytes := B64Decode(text);
    if bytes.None? || |bytes.value| % 2 == 1 { return None; }
    var m := |bytes.value|;
    forall k | 0 <= k < m { block[base + k] := bytes.value[k]; }
    assert block[base..base + m] == bytes.value;
    r := Transcode(block, base, m);
  }

  // the shapes of one round of the loop of Decode

  lemma {:induction false} DashIs(s: string, n: nat)
    requires n <= |s| && '-' !in s[..n]
    ensures UntilDash(s) >= n && (n == |s| || s[n] == '-' ==> UntilDash(s) == n)
    decreases n
  {
    if n > 0 {
      assert s[..n][0] == s[0];
      assert s[1..][..n - 1] == s[..n][1..];
      DashIs(s[1..], n - 1);
    }
  }

  lemma ByteStep(s: string, ascii: bool)
    requires s != [] && s[0] != '&'
    ensures DecodeFrom(s, ascii) == if IllegalByte(s[0]) then None else Prepend([s[0]], DecodeFrom(s[1..], true))
  {
  }

  lemma BrokenSegment(s: string, n: nat, ascii: bool)
    requires s != [] && s[0] == '&' && n < |s| && '-' !in s[1..][..n]
    requires n == |s| - 1 || s[n + 1] == '\r' || s[n + 1] == '\n'
    ensures DecodeFrom(s, ascii) == None
  {
    hide SegmentText;
    var t := s[1..];
    DashIs(t, n);
    if n < |t| {
      assert t[n] == s[n + 1];
      assert t[..n + 1] == t[..n] + [t[n]];
      DashIs(t, n + 1);
      assert t[..UntilDash(t)][n] == t[n];
    }
  }

  lemma SegmentAt(s: string, n: nat, ascii: bool)
    requires s != [] && s[0] == '&' && n + 1 < |s| && s[n + 1] == '-'
    requires '-' !in s[1..][..n] && '\r' !in s[1..][..n] && '\n' !in s[1..][..n]
    ensures n == 0 ==> DecodeFrom(s, ascii) == Prepend("&", DecodeFrom(s[2..], true))
    ensures n > 0 && !ascii ==> DecodeFrom(s, ascii) == None
    ensures n > 0 && ascii ==>
      DecodeFrom(s, ascii) == match SegmentText(s[1..][..n])
                              case None => None
                              case Some(t) => if t == [] then None else Prepend(t, DecodeFrom(s[n + 2..], false))
  {
    hide SegmentText;
    DashIs(s[1..], n);
  }

  /** Decode. */
  method Decode(src: string) returns (r: Option<string>)
    ensures r == DecodeText(src)
  {
    hide DecodeFrom, SegmentText, ValidUtf8, Prepend;
    if !ValidUtf8(src) { return None; }
    var sb, ascii := "", true;
    var i := 0;
    assert src[0..] == src;
    PrependConcat("", "", DecodeFrom(src, true));
    while i < |src|
      invariant i <= |src| && Prepend(sb, DecodeFrom(src[i..], ascii)) == DecodeFrom(src, true)
    {
      ghost var s := src[i..];
      PrependNone(sb);
      var ch := src[i];
      if ch != '&' {
        ByteStep(s, ascii);
        if IllegalByte(ch) { return None; }
        assert s[1..] == src[i + 1..];
        PrependConcat(sb, [ch], DecodeFrom(src[i + 1..], true));
        sb, ascii, i := sb + [ch], true, i + 1;
      } else {
        var start := i + 1;
        i := i + 1;
        while i < |src| && src[i] != '-'
          invariant start <= i <= |src| && '-' !in src[start..i] && '\r' !in src[start..i] && '\n' !in src[start..i]
        {
          assert s[1..][..i - start] == src[start..i] && src[i] == s[i - start + 1];
          if src[i] == '\r' || src[i] == '\n' { BrokenSegment(s, i - start, ascii); return None; }
          assert src[start..i + 1] == src[start..i] + [src[i]];
          i := i + 1;
        }
        assert s[1..][..i - start] == src[start..i];
        if i == |src| { BrokenSegment(s, i - start, ascii); return None; }
        assert src[i] == s[i - start + 1];
        SegmentAt(s, i - start, ascii);
        assert s[i - start + 2..] == src[i + 1..];
        if i == start {
          PrependConcat(sb, "&", DecodeFrom(src[i + 1..], true));
          sb, ascii := sb + "&", true;
        } else {
          if !ascii { return None; }
          var b := DecodeSegment(src[start..i]);
          if b.None? || b.value == [] { return None; }
          PrependConcat(sb, b.value, DecodeFrom(src[i + 1..], false));
          sb, ascii := sb + b.value, false;
        }
        i := i + 1;
      }
    }
    EmptyDecode(sb, ascii);
    assert src[i..] == [];
    r := Some(sb);
  }

  lemma EmptyDecode(a: string, ascii: bool)
    ensures Prepend(a, DecodeFrom([], ascii)) == Some(a)
  {
    assert a + [] == a;
  }
}
