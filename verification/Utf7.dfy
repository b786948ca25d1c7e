/** internal/utf7: modified UTF-7, section 5.1.3 of RFC 3501. */
module Utf7 {
  import opened Text
  import opened Unicode

  // ---------------------------------------------------------------- encoding

  predicate Printable(c: char) { 0x20 as char <= c <= 0x7E as char }

  /** The length of the leading run of bytes that have to be encoded. */
  function RunLength(s: string): (n: nat)
    ensures n <= |s| && (n < |s| ==> Printable(s[n]))
    ensures forall i | 0 <= i < n :: !Printable(s[i])
  {
    if s == [] || Printable(s[0]) then 0 else 1 + RunLength(s[1..])
  }

  /** Base64 with the padding cut off. */
  function Bare(b: string): (s: string)
    requires forall i | 0 <= i < |b| :: b[i] < 256 as char
  {
    B64Length(b);
    B64Encode(b)[..(|b| + 2) / 3 * 4 - (2 - (|b| + 2) % 3)]
  }

  /** encode: one run of bytes as a base64 shift. */
  function Shifted(run: string): (s: string) { "&" + Bare(Utf16s(Runes(run))) + "-" }

  function PlainText(c: char): (s: string) { if c == '&' then "&-" else [c] }

  /** Encode. */
  function EncodeText(s: string): (r: string)
    decreases |s|
  {
    if s == [] then []
    else if Printable(s[0]) then PlainText(s[0]) + EncodeText(s[1..])
    else Shifted(s[..RunLength(s)]) + EncodeText(s[RunLength(s)..])
  }

  /** Escape: raw UTF-8 with the ampersands doubled up. */
  function EscapeText(s: string): (r: string)
    decreases |s|
  {
    if s == [] then []
    else
      var r := DecodeRune(s);
      EncodeRune(r.value) + (if r.value == '&' as nat then "-" else "") + EscapeText(s[r.size..])
  }

  // ---------------------------------------------------------------- decoding

  function UntilDash(s: string): (n: nat)
    ensures n <= |s| && (n < |s| ==> s[n] == '-') && '-' !in s[..n]
  {
    if s == [] || s[0] == '-' then 0 else 1 + UntilDash(s[1..])
  }

  /** A segment filled up to a multiple of four; one byte too few leaves a zero byte. */
  function Padded(seg: string): (s: string)
    ensures |s| % 4 == 0 && |seg| <= |s| < |seg| + 4
  {
    if |seg| % 4 == 0 then seg
    else if |seg| % 4 == 3 then seg + "="
    else if |seg| % 4 == 2 then seg + "=="
    else seg + "==" + [0 as char]
  }

  /** decode: None is the nil slice. */
  function SegmentText(seg: string): (r: Option<string>)
    requires seg != []
  {
    if seg[|seg| - 1] == '=' then None
    else
      match B64Decode(Padded(seg))
      case None => None
      case Some(b) => if |b| % 2 == 1 then None else FromUtf16(b)
  }

  function IllegalByte(c: char): (b: bool) { c < 0x20 as char || 0x7E as char < c < 0x80 as char }

  /** The loop of Decode; ascii is false right after a base64 shift. */
  function DecodeFrom(s: string, ascii: bool): (r: Option<string>)
    decreases |s|
  {
    if s == [] then Some([])
    else if IllegalByte(s[0]) then None
    else if s[0] != '&' then Prepend([s[0]], DecodeFrom(s[1..], true))
    else
      var n := UntilDash(s[1..]);
      if n == |s| - 1 || '\r' in s[1..][..n] || '\n' in s[1..][..n] then None
      else if n == 0 then Prepend("&", DecodeFrom(s[2..], true))
      else if !ascii then None
      else
        match SegmentText(s[1..][..n])
        case None => None
        case Some(t) => if t == [] then None else Prepend(t, DecodeFrom(s[n + 2..], false))
  }

  /** Decode. */
  function DecodeText(s: string): (r: Option<string>) {
    if ValidUtf8(s) then DecodeFrom(s, true) else None
  }

  // ---------------------------------------------------------------- the base64 of a shift

  ghost predicate AllBase64(s: string) { forall i | 0 <= i < |s| :: B64Index(s[i]).Some? }

  function Padding(n: nat): (s: string) { if n % 3 == 0 then "" else if n % 3 == 1 then "==" else "=" }

  lemma QuadIsBase64(x: nat, y: nat, z: nat)
    requires x < 256 && y < 256 && z < 256
    ensures AllBase64(Quad(x, y, z))
  {
    QuadIndices(x, y, z);
    hide Quad, B64Index;
  }

  lemma StartIsBase64(s: string, n: nat)
    requires AllBase64(s) && n <= |s|
    ensures AllBase64(s[..n])
  {
  }

  lemma BareNone()
    ensures Bare([]) == [] == B64Encode([])
  {
  }

  lemma BareOne(b: string)
    requires AllBytes(b) && |b| == 1
    ensures B64Encode(b) == Bare(b) + Padding(|b|) && AllBase64(Bare(b))
  {
    hide Quad, AllBase64;
    var q := Quad(b[0] as nat, 0, 0);
    QuadIsBase64(b[0] as nat, 0, 0);
    StartIsBase64(q, 2);
    assert Bare(b) == (q[..2] + "==")[..2] == q[..2];
  }

  lemma BareTwo(b: string)
    requires AllBytes(b) && |b| == 2
    ensures B64Encode(b) == Bare(b) + Padding(|b|) && AllBase64(Bare(b))
  {
    hide Quad, AllBase64;
    var q := Quad(b[0] as nat, b[1] as nat, 0);
    QuadIsBase64(b[0] as nat, b[1] as nat, 0);
    StartIsBase64(q, 3);
    assert Bare(b) == (q[..3] + "=")[..3] == q[..3];
  }

  lemma {:induction false} BareParts(b: string)
    requires AllBytes(b)
    ensures B64Encode(b) == Bare(b) + Padding(|b|) && AllBase64(Bare(b))
    decreases |b|
  {
    hide Quad, B64Index, Bare;
    if b == [] {
      BareNone();
    } else if |b| == 1 {
      BareOne(b);
    } else if |b| == 2 {
      BareTwo(b);
    } else {
      QuadIsBase64(b[0] as nat, b[1] as nat, b[2] as nat);
      BareParts(b[3..]);
      BareStep(b);
      assert Padding(|b|) == Padding(|b| - 3);
    }
  }

  lemma BareStep(b: string)
    requires AllBytes(b) && |b| >= 3
    ensures Bare(b) == Quad(b[0] as nat, b[1] as nat, b[2] as nat) + Bare(b[3..])
  {
    hide Quad;
    B64Length(b);
    B64Length(b[3..]);
    var q := Quad(b[0] as nat, b[1] as nat, b[2] as nat);
    var m := (|b| - 1) / 3 * 4 - (2 - (|b| - 1) % 3);
    assert (|b| + 2) / 3 * 4 - (2 - (|b| + 2) % 3) == m + 4;
    assert (q + B64Encode(b[3..]))[..m + 4] == q + B64Encode(b[3..])[..m];
  }

  lemma Base64Bytes(s: string)
    requires AllBase64(s)
    ensures forall i | 0 <= i < |s| :: Printable(s[i]) && s[i] != '=' && s[i] != '-' && s[i] != '&'
  {
  }

  lemma PaddingBack(s: string, n: nat)
    requires |s| == (n + 2) / 3 * 4 - |Padding(n)|
    ensures Padded(s) == s + Padding(n)
  {
  }

  lemma PadsBack(b: string)
    requires AllBytes(b) && b != []
    ensures Bare(b) != [] && Padded(Bare(b)) == B64Encode(b) && Bare(b)[|Bare(b)| - 1] != '='
  {
    hide B64Encode, B64Index, Bare, Padded;
    BareParts(b);
    B64Length(b);
    Base64Bytes(Bare(b));
    PaddingBack(Bare(b), |b|);
  }

  lemma SegmentIs(seg: string, b: string)
    requires seg != [] && seg[|seg| - 1] != '=' && Units(b) && B64Decode(Padded(seg)) == Some(b)
    ensures SegmentText(seg) == FromUtf16(b)
  {
  }

  /** decode on the base64 of a shift. */
  lemma SegmentReads(rs: seq<nat>, b: string)
    requires AllScalars(rs) && rs != [] && forall i | 0 <= i < |rs| :: !IsPrintable(rs[i])
    requires b == Utf16s(rs)
    ensures Bare(b) != [] && SegmentText(Bare(b)) == Some(Utf8(rs))
  {
    hide B64Decode, FromUtf16, Utf8, B64Encode, Bare, Padded, SegmentText, Utf16s;
    assert b != [] && AllBytes(b) && |b| % 2 == 0;
    PadsBack(b);
    B64RoundTrip(b);
    SegmentIs(Bare(b), b);
    Utf16RoundTrip(rs);
  }

  // ---------------------------------------------------------------- Decode after Encode

  lemma {:induction false} RunRunes(run: string)
    requires ValidUtf8(run) && forall i | 0 <= i < |run| :: !Printable(run[i])
    ensures forall i | 0 <= i < |Runes(run)| :: !IsPrintable(Runes(run)[i])
    decreases |run|
  {
    if run != [] {
      var r := DecodeRune(run);
      assert !IsPrintable(r.value);
      hide DecodeRune;
      RunRunes(run[r.size..]);
    }
  }

  /** A shift is read as the run it stands for, when it does not follow another shift. */
  lemma ShiftReads(run: string, rest: string)
    requires ValidUtf8(run) && run != [] && forall i | 0 <= i < |run| :: !Printable(run[i])
    ensures DecodeFrom(Shifted(run) + rest, true) == Prepend(run, DecodeFrom(rest, false))
  {
    var rs := Runes(run);
    var b := Utf16s(rs);
    var seg := Bare(b);
    ValidRunes(run);
    RunRunes(run);
    SegmentReads(rs, b);
    BareParts(b);
    Base64Bytes(seg);
    hide Utf16s, Bare, B64Encode, B64Index, Runes, ValidUtf8, Utf8, SegmentText;
    SegmentStep(seg, rest, run);
  }

  lemma {:induction false} UntilDashAt(seg: string, rest: string)
    requires '-' !in seg
    ensures UntilDash(seg + "-" + rest) == |seg|
  {
    var s := seg + "-" + rest;
    if seg != [] {
      assert s[0] == seg[0];
      UntilDashAt(seg[1..], rest);
      assert s[1..] == seg[1..] + "-" + rest;
    }
  }

  lemma SegmentStep(seg: string, rest: string, run: string)
    requires seg != [] && run != [] && forall i | 0 <= i < |seg| :: Printable(seg[i]) && seg[i] != '-'
    requires SegmentText(seg) == Some(run)
    ensures DecodeFrom("&" + seg + "-" + rest, true) == Prepend(run, DecodeFrom(rest, false))
  {
    hide SegmentText;
    UntilDashAt(seg, rest);
    var s := "&" + seg + "-" + rest;
    var n := |seg|;
    assert s[1..] == seg + "-" + rest;
    assert s[1..][..n] == seg;
    assert s[n + 2..] == rest;
  }

  lemma PlainReads(c: char, rest: string, ascii: bool)
    requires Printable(c)
    ensures DecodeFrom(PlainText(c) + rest, ascii) == Prepend([c], DecodeFrom(rest, true))
  {
    hide SegmentText;
    var s := PlainText(c) + rest;
    if c == '&' {
      assert s[1..] == "-" + rest && s[2..] == rest;
    } else {
      assert s[1..] == rest;
    }
  }

  lemma EncodePlain(s: string)
    requires s != [] && Printable(s[0])
    ensures EncodeText(s) == PlainText(s[0]) + EncodeText(s[1..])
  {
  }

  lemma EncodeRun(s: string, n: nat)
    requires s != [] && !Printable(s[0]) && n == RunLength(s)
    ensures n > 0 && EncodeText(s) == Shifted(s[..n]) + EncodeText(s[n..])
  {
    hide Shifted;
  }

  lemma DecodesPlain(s: string, ascii: bool)
    requires s != [] && Printable(s[0]) && DecodeFrom(EncodeText(s[1..]), true) == Some(s[1..])
    ensures DecodeFrom(EncodeText(s), ascii) == Some(s)
  {
    hide DecodeFrom, EncodeText, PlainText;
    EncodePlain(s);
    PlainReads(s[0], EncodeText(s[1..]), ascii);
    assert s == [s[0]] + s[1..];
  }

  lemma DecodesRun(s: string, n: nat)
    requires ValidUtf8(s) && s != [] && !Printable(s[0]) && n == RunLength(s)
    requires DecodeFrom(EncodeText(s[n..]), false) == Some(s[n..])
    ensures DecodeFrom(EncodeText(s), true) == Some(s)
  {
    hide DecodeFrom, EncodeText, Shifted, ValidUtf8;
    EncodeRun(s, n);
    ValidSplit(s, n);
    ShiftReads(s[..n], EncodeText(s[n..]));
    assert s == s[..n] + s[n..];
  }

  /** Decode undoes Encode: no piece of the output is refused, and none is a shift after a shift. */
  lemma {:induction false} DecodesFrom(s: string, ascii: bool)
    requires ValidUtf8(s) && (ascii || s == [] || Printable(s[0]))
    ensures DecodeFrom(EncodeText(s), ascii) == Some(s)
    decreases |s|
  {
    if s != [] {
      hide DecodeFrom, EncodeText, ValidUtf8;
      if Printable(s[0]) {
        DecodesFrom(s[1..], true);
        DecodesPlain(s, ascii);
      } else {
        var n := RunLength(s);
        ValidSplit(s, n);
        DecodesFrom(s[n..], false);
        DecodesRun(s, n);
      }
    }
  }

  lemma {:induction false} EncodePrintable(s: string)
    ensures forall i | 0 <= i < |EncodeText(s)| :: Printable(EncodeText(s)[i])
    decreases |s|
  {
    if s != [] {
      if Printable(s[0]) {
        EncodePrintable(s[1..]);
      } else {
        var n := RunLength(s);
        var b := Utf16s(Runes(s[..n]));
        EncodePrintable(s[n..]);
        BareParts(b);
        Base64Bytes(Bare(b));
        hide Utf16s, Bare, B64Encode, B64Index, Runes;
      }
    }
  }

  // ---------------------------------------------------------------- no shift follows a shift

  /** A base64 shift runs from i to j: an ampersand, something that is not a dash, and the first dash. */
  ghost predicate IsShift(t: string, i: nat, j: nat) {
    i + 1 < j < |t| && t[i] == '&' && t[j] == '-' && forall k | i < k < j :: t[k] != '-'
  }

  ghost predicate ShiftAt(t: string, i: nat) { exists j: nat :: IsShift(t, i, j) }

  /** No two shifts stand side by side. */
  ghost predicate NoNullShift(t: string) { forall i: nat, j: nat | IsShift(t, i, j) :: !ShiftAt(t, j + 1) }

  /** Shifts of the second part of a text are those of the text, further on. */
  lemma ShiftMoves(a: string, t: string, i: nat, j: nat)
    requires |a| <= i
    ensures IsShift(a + t, i, j) ==> j >= |a| && IsShift(t, i - |a|, j - |a|)
  {
    if IsShift(a + t, i, j) {
      forall k | i - |a| < k < j - |a| ensures t[k] != '-' { assert (a + t)[k + |a|] == t[k]; }
    }
  }

  lemma ShiftAtMoves(a: string, t: string, p: nat)
    requires |a| <= p
    ensures ShiftAt(a + t, p) ==> ShiftAt(t, p - |a|)
  {
    if ShiftAt(a + t, p) {
      var j: nat :| IsShift(a + t, p, j);
      ShiftMoves(a, t, p, j);
      assert IsShift(t, p - |a|, j - |a|);
    }
  }

  /** Text in front of a text without side-by-side shifts, when its own shifts are followed by none. */
  lemma NoNullShiftAfter(a: string, t: string)
    requires NoNullShift(t)
    requires forall i: nat, j: nat | i < |a| && IsShift(a + t, i, j) :: j + 1 == |a| && !ShiftAt(t, 0)
    ensures NoNullShift(a + t)
  {
    forall i: nat, j: nat | IsShift(a + t, i, j) ensures !ShiftAt(a + t, j + 1) {
      hide IsShift, ShiftAt;
      if i >= |a| { ShiftMoves(a, t, i, j); }
      ShiftAtMoves(a, t, j + 1);
    }
  }

  lemma PlainNoShift(c: char, t: string, i: nat, j: nat)
    requires i < |PlainText(c)|
    ensures !IsShift(PlainText(c) + t, i, j)
  {
    var u := PlainText(c) + t;
    assert c == '&' ==> u[1] == '-';
  }

  /** The only shift that starts inside a written shift is that shift. */
  lemma ShiftedShift(seg: string, t: string, i: nat, j: nat)
    requires forall k | 0 <= k < |seg| :: Printable(seg[k]) && seg[k] != '-' && seg[k] != '&'
    requires i < |seg| + 2 && IsShift("&" + seg + "-" + t, i, j)
    ensures j == |seg| + 1
  {
    var u := "&" + seg + "-" + t;
    assert forall k | 0 <= k < |seg| :: u[k + 1] == seg[k];
    assert u[|seg| + 1] == '-';
  }

  /** For every string, valid or not: what Encode writes never has a shift right after a shift, and a
      string that starts with a printable byte is not written as a shift. */
  lemma {:induction false} NoAdjacentShifts(s: string)
    ensures NoNullShift(EncodeText(s))
    ensures s == [] || Printable(s[0]) ==> !ShiftAt(EncodeText(s), 0)
    decreases |s|, 1
  {
    if s != [] {
      if Printable(s[0]) {
        var a, t := PlainText(s[0]), EncodeText(s[1..]);
        NoAdjacentShifts(s[1..]);
        EncodePlain(s);
        hide EncodeText, NoNullShift, IsShift;
        forall i: nat, j: nat | i < |a| ensures !IsShift(a + t, i, j) { PlainNoShift(s[0], t, i, j); }
        NoNullShiftAfter(a, t);
      } else {
        RunEncodes(s, RunLength(s));
      }
    }
  }

  lemma {:induction false} RunEncodes(s: string, n: nat)
    requires s != [] && !Printable(s[0]) && n == RunLength(s)
    ensures NoNullShift(EncodeText(s))
    decreases |s|, 0
  {
    EncodeRun(s, n);
    var t, b := EncodeText(s[n..]), Utf16s(Runes(s[..n]));
    var seg := Bare(b);
    NoAdjacentShifts(s[n..]);
    BareParts(b);
    Base64Bytes(seg);
    hide EncodeText, NoNullShift, IsShift, Bare, Utf16s, Runes, B64Encode, RunLength;
    var a := Shifted(s[..n]);
    forall i: nat, j: nat | i < |a| && IsShift(a + t, i, j) ensures j + 1 == |a| {
      ShiftedShift(seg, t, i, j);
    }
    NoNullShiftAfter(a, t);
  }

  lemma {:induction false} AsciiValid(s: string)
    requires forall i | 0 <= i < |s| :: s[i] < 0x80 as char
    ensures ValidUtf8(s)
    decreases |s|
  {
    if s != [] { AsciiValid(s[1..]); }
  }

  /** Decode(Encode(s)) == s for every valid UTF-8 string, through printable ASCII only. */
  lemma EncodeRoundTrip(s: string)
    requires ValidUtf8(s)
    ensures DecodeText(EncodeText(s)) == Some(s)
    ensures forall i | 0 <= i < |EncodeText(s)| :: Printable(EncodeText(s)[i])
  {
    hide EncodeText, DecodeFrom, ValidUtf8;
    EncodePrintable(s);
    AsciiValid(EncodeText(s));
    DecodesFrom(s, true);
  }

  // ---------------------------------------------------------------- Decode after Escape

  predicate NoControls(s: string) { forall i | 0 <= i < |s| :: !IllegalByte(s[i]) }

  /** Escape leaves every byte of a valid string but the ampersand alone. */
  function Ampersands(s: string): (r: string) { if s == [] then [] else PlainText(s[0]) + Ampersands(s[1..]) }

  lemma AmpersandsCons(s: string)
    requires s != []
    ensures Ampersands(s) == PlainText(s[0]) + Ampersands(s[1..])
  {
  }

  lemma Regroup(a: string, b: string, c: string)
    ensures a + b + c == a + (b + c)
  {
  }

  lemma {:induction false} AmpersandsSplit(a: string, b: string)
    ensures Ampersands(a + b) == Ampersands(a) + Ampersands(b)
    decreases |a|
  {
    assert a == [] ==> Ampersands(a) == [] && a + b == b;
    hide Ampersands, PlainText;
    if a != [] {
      AmpersandsSplit(a[1..], b);
      AmpersandsCons(a + b);
      AmpersandsCons(a);
      assert (a + b)[1..] == a[1..] + b;
      Regroup(PlainText(a[0]), Ampersands(a[1..]), Ampersands(b));
    }
  }

  lemma {:induction false} NoAmpersand(s: string)
    requires '&' !in s
    ensures Ampersands(s) == s
  {
    if s != [] { NoAmpersand(s[1..]); assert s == [s[0]] + s[1..]; }
  }

  lemma RuneAmpersands(r: nat)
    requires IsScalar(r)
    ensures Ampersands(EncodeRune(r)) == EncodeRune(r) + (if r == '&' as nat then "-" else "")
  {
    if r < 0x80 {
      assert EncodeRune(r)[1..] == [];
    } else {
      assert '&' !in EncodeRune(r);
      NoAmpersand(EncodeRune(r));
    }
  }

  lemma {:induction false} EscapeIs(s: string)
    requires ValidUtf8(s)
    ensures EscapeText(s) == Ampersands(s)
    decreases |s|
  {
    if s != [] {
      EncodeDecodeRune(s);
      var r := DecodeRune(s);
      RuneAmpersands(r.value);
      hide DecodeRune, EncodeRune, Ampersands;
      EscapeIs(s[r.size..]);
      AmpersandsSplit(s[..r.size], s[r.size..]);
      assert s == s[..r.size] + s[r.size..];
    }
  }

  lemma {:induction false} AmpersandsRead(s: string)
    ensures DecodeFrom(Ampersands(s), true) == if NoControls(s) then Some(s) else None
  {
    if s != [] {
      AmpersandsRead(s[1..]);
      var rest := Ampersands(s[1..]);
      assert NoControls(s) <==> !IllegalByte(s[0]) && NoControls(s[1..]);
      assert s == [s[0]] + s[1..];
      if Printable(s[0]) {
        hide DecodeFrom;
        PlainReads(s[0], rest, true);
      } else {
        assert ([s[0]] + rest)[1..] == rest;
      }
    }
  }

  lemma ValidCons(r: nat, rest: string)
    requires IsScalar(r) && ValidUtf8(rest)
    ensures ValidUtf8(EncodeRune(r) + rest)
  {
    DecodeEncodeRune(r, rest);
    assert |EncodeRune(r)| == 1 ==> r != RUNE_ERROR;
    hide DecodeRune, EncodeRune;
    var e := EncodeRune(r);
    assert (e + rest)[|e|..] == rest;
  }

  lemma ValidAmpersand(rest: string)
    requires ValidUtf8(rest)
    ensures ValidUtf8(EncodeRune('&' as nat) + "-" + rest)
  {
    assert EncodeRune('-' as nat) == "-";
    hide ValidUtf8, EncodeRune;
    ValidCons('-' as nat, rest);
    ValidCons('&' as nat, "-" + rest);
    assert EncodeRune('&' as nat) + "-" + rest == EncodeRune('&' as nat) + ("-" + rest);
  }

  lemma {:induction false} EscapeValid(s: string)
    requires ValidUtf8(s)
    ensures ValidUtf8(EscapeText(s))
    decreases |s|
  {
    hide DecodeRune, EncodeRune;
    if s != [] {
      var r := DecodeRune(s);
      var rest := EscapeText(s[r.size..]);
      EscapeValid(s[r.size..]);
      hide ValidUtf8;
      if r.value == '&' as nat {
        ValidAmpersand(rest);
      } else {
        ValidCons(r.value, rest);
        assert EncodeRune(r.value) + "" + rest == EncodeRune(r.value) + rest;
      }
    }
  }

  /** Decode undoes Escape exactly on the valid strings without control bytes; the others it refuses. */
  lemma EscapeRoundTrip(s: string)
    requires ValidUtf8(s)
    ensures DecodeText(EscapeText(s)) == if NoControls(s) then Some(s) else None
  {
    hide DecodeFrom, ValidUtf8;
    EscapeIs(s);
    EscapeValid(s);
    AmpersandsRead(s);
  }
}
