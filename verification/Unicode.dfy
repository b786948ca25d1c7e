/** UTF-8, UTF-16 and base64 as internal/utf7 uses them.

    Bytes are chars below 256 and code points are numbers. The functions are those of the
    packages unicode/utf8, unicode/utf16 and encoding/base64 that the codec calls. */
module Unicode {
  import opened Text

  // ---------------------------------------------------------------- UTF-8

  predicate IsScalar(r: nat) { r < 0xD800 || 0xE000 <= r <= 0x10FFFF }

  /** utf8.EncodeRune. */
  function EncodeRune(r: nat): (s: string)
    requires IsScalar(r)
    ensures 1 <= |s| <= 4
    ensures forall i | 0 <= i < |s| :: s[i] < 256 as char
  {
    if r < 0x80 then [r as char]
    else if r < 0x800 then [(0xC0 + r / 64) as char, (0x80 + r % 64) as char]
    else if r < 0x10000 then [(0xE0 + r / 4096) as char, (0x80 + r / 64 % 64) as char, (0x80 + r % 64) as char]
    else [(0xF0 + r / 262144) as char, (0x80 + r / 4096 % 64) as char, (0x80 + r / 64 % 64) as char, (0x80 + r % 64) as char]
  }

  ghost predicate AllScalars(rs: seq<nat>) { forall i | 0 <= i < |rs| :: IsScalar(rs[i]) }

  function Utf8(rs: seq<nat>): (s: string)
    requires forall i | 0 <= i < |rs| :: IsScalar(rs[i])
  {
    if rs == [] then [] else EncodeRune(rs[0]) + Utf8(rs[1..])
  }

  predicate IsCont(c: char) { 0x80 as char <= c <= 0xBF as char }

  datatype Rune = Rune(value: nat, size: nat)

  const RUNE_ERROR: nat := 0xFFFD

  /** utf8.DecodeRune: the first code point and its width, or (RuneError, 1). */
  function DecodeRune(s: string): (r: Rune)
    requires s != []
    ensures 1 <= r.size <= |s| && IsScalar(r.value)
  {
    var b := s[0] as nat;
    if b < 0x80 then Rune(b, 1)
    else if 0xC2 <= b <= 0xDF && |s| >= 2 && IsCont(s[1]) then
      Rune((b - 0xC0) * 64 + (s[1] as nat - 0x80), 2)
    else if 0xE0 <= b <= 0xEF && |s| >= 3 && IsCont(s[1]) && IsCont(s[2]) then
      var r := (b - 0xE0) * 4096 + (s[1] as nat - 0x80) * 64 + (s[2] as nat - 0x80);
      if r >= 0x800 && IsScalar(r) then Rune(r, 3) else Rune(RUNE_ERROR, 1)
    else if 0xF0 <= b <= 0xF4 && |s| >= 4 && IsCont(s[1]) && IsCont(s[2]) && IsCont(s[3]) then
      var r := (b - 0xF0) * 262144 + (s[1] as nat - 0x80) * 4096 + (s[2] as nat - 0x80) * 64 + (s[3] as nat - 0x80);
      if 0x10000 <= r <= 0x10FFFF then Rune(r, 4) else Rune(RUNE_ERROR, 1)
    else Rune(RUNE_ERROR, 1)
  }

  lemma DecodeRune2(r: nat, s: string)
    requires 0x80 <= r < 0x800 && |s| >= 2 && EncodeRune(r) == s[..2]
    ensures DecodeRune(s) == Rune(r, 2)
  {
    assert s[0] == s[..2][0] && s[1] == s[..2][1];
  }

  lemma DecodeRune3(r: nat, s: string)
    requires 0x800 <= r < 0x10000 && IsScalar(r) && |s| >= 3 && EncodeRune(r) == s[..3]
    ensures DecodeRune(s) == Rune(r, 3)
  {
    assert s[0] == s[..3][0] && s[1] == s[..3][1] && s[2] == s[..3][2];
    assert r / 64 == r / 4096 * 64 + r / 64 % 64;
  }

  lemma Quotient4096(r: nat)
    ensures r / 4096 == r / 64 / 64
  {
  }

  lemma Quotient262144(r: nat)
    ensures r / 262144 == r / 4096 / 64
  {
  }

  lemma SixBitGroups(r: nat)
    ensures r == r / 262144 * 262144 + r / 4096 % 64 * 4096 + r / 64 % 64 * 64 + r % 64
  {
    Quotient4096(r);
    Quotient262144(r);
  }

  lemma DecodeRune4(r: nat, s: string)
    requires 0x10000 <= r <= 0x10FFFF && |s| >= 4 && EncodeRune(r) == s[..4]
    ensures DecodeRune(s) == Rune(r, 4)
  {
    assert s[0] == s[..4][0] && s[1] == s[..4][1] && s[2] == s[..4][2] && s[3] == s[..4][3];
    SixBitGroups(r);
  }

  lemma DecodeEncodeRune(r: nat, rest: string)
    requires IsScalar(r)
    ensures DecodeRune(EncodeRune(r) + rest) == Rune(r, |EncodeRune(r)|)
  {
    var s, n := EncodeRune(r) + rest, |EncodeRune(r)|;
    assert s[..n] == EncodeRune(r);
    if r < 0x80 {
      assert s[0] == EncodeRune(r)[0];
    } else {
      hide DecodeRune;
      if r < 0x800 { DecodeRune2(r, s); } else if r < 0x10000 { DecodeRune3(r, s); } else { DecodeRune4(r, s); }
    }
  }

  lemma SixBits(q: nat, d: nat)
    requires d < 64
    ensures (q * 64 + d) / 64 == q && (q * 64 + d) % 64 == d
  {
  }

  lemma Encode2(a: nat, b: nat)
    requires 2 <= a < 32 && b < 64
    ensures EncodeRune(a * 64 + b) == [(0xC0 + a) as char, (0x80 + b) as char]
  {
    SixBits(a, b);
  }

  lemma Encode3(a: nat, b: nat, c: nat)
    requires b < 64 && c < 64 && 0x800 <= a * 4096 + b * 64 + c < 0x10000 && IsScalar(a * 4096 + b * 64 + c)
    ensures EncodeRune(a * 4096 + b * 64 + c) == [(0xE0 + a) as char, (0x80 + b) as char, (0x80 + c) as char]
  {
    SixBits(a * 64 + b, c);
    SixBits(a, b);
    var r := a * 4096 + b * 64 + c;
    assert r / 4096 == a;
  }

  lemma Encode4(a: nat, b: nat, c: nat, d: nat)
    requires b < 64 && c < 64 && d < 64 && 0x10000 <= a * 262144 + b * 4096 + c * 64 + d <= 0x10FFFF
    ensures EncodeRune(a * 262144 + b * 4096 + c * 64 + d)
         == [(0xF0 + a) as char, (0x80 + b) as char, (0x80 + c) as char, (0x80 + d) as char]
  {
    SixBits(a * 4096 + b * 64 + c, d);
    SixBits(a * 64 + b, c);
    SixBits(a, b);
    var r := a * 262144 + b * 4096 + c * 64 + d;
    assert r / 4096 == a * 64 + b;
    assert r / 262144 == a;
  }

  lemma Reencode3(s: string)
    requires s != [] && DecodeRune(s).size == 3
    ensures EncodeRune(DecodeRune(s).value) == s[..3]
  {
    hide EncodeRune;
    var a, b, c := s[0] as nat - 0xE0, s[1] as nat - 0x80, s[2] as nat - 0x80;
    assert DecodeRune(s).value == a * 4096 + b * 64 + c;
    Encode3(a, b, c);
  }

  lemma Reencode4(s: string)
    requires s != [] && DecodeRune(s).size == 4
    ensures EncodeRune(DecodeRune(s).value) == s[..4]
  {
    hide EncodeRune;
    var a, b, c, d := s[0] as nat - 0xF0, s[1] as nat - 0x80, s[2] as nat - 0x80, s[3] as nat - 0x80;
    assert DecodeRune(s).value == a * 262144 + b * 4096 + c * 64 + d;
    Encode4(a, b, c, d);
  }

  lemma EncodeDecodeRune(s: string)
    requires s != [] && DecodeRune(s) != Rune(RUNE_ERROR, 1)
    ensures EncodeRune(DecodeRune(s).value) == s[..DecodeRune(s).size]
  {
    var n := DecodeRune(s).size;
    if n == 4 {
      hide DecodeRune, EncodeRune;
      Reencode4(s);
    } else if n == 3 {
      hide DecodeRune, EncodeRune;
      Reencode3(s);
    } else if n == 2 {
      Encode2(s[0] as nat - 0xC0, s[1] as nat - 0x80);
      hide EncodeRune;
    }
  }

  /** utf8.ValidString. */
  predicate ValidUtf8(s: string)
    decreases |s|
  {
    s == [] || (DecodeRune(s) != Rune(RUNE_ERROR, 1) && ValidUtf8(s[DecodeRune(s).size..]))
  }

  /** The code points a range loop visits. */
  function Runes(s: string): (rs: seq<nat>)
    ensures forall i | 0 <= i < |rs| :: IsScalar(rs[i])
    decreases |s|
  {
    if s == [] then [] else [DecodeRune(s).value] + Runes(s[DecodeRune(s).size..])
  }

  /** A valid string is the UTF-8 form of its code points. */
  lemma {:induction false} ValidRunes(s: string)
    requires ValidUtf8(s)
    ensures Utf8(Runes(s)) == s
    decreases |s|
  {
    hide DecodeRune, EncodeRune;
    if s != [] {
      EncodeDecodeRune(s);
      var n := DecodeRune(s).size;
      ValidRunes(s[n..]);
      hide Utf8;
      Utf8Cons(DecodeRune(s).value, Runes(s[n..]));
      assert s == s[..n] + s[n..];
    }
  }

  lemma Utf8Cons(r: nat, rs: seq<nat>)
    requires IsScalar(r) && AllScalars(rs)
    ensures AllScalars([r] + rs) && Utf8([r] + rs) == EncodeRune(r) + Utf8(rs)
  {
    hide EncodeRune;
    assert ([r] + rs)[1..] == rs;
  }

  /** The UTF-8 form of any code points is valid and gives them back. */
  lemma {:induction false} Utf8Valid(rs: seq<nat>)
    requires AllScalars(rs)
    ensures ValidUtf8(Utf8(rs)) && Runes(Utf8(rs)) == rs
    decreases |rs|
  {
    if rs != [] {
      DecodeEncodeRune(rs[0], Utf8(rs[1..]));
      hide DecodeRune, EncodeRune;
      Utf8Valid(rs[1..]);
      var s, n := Utf8(rs), |EncodeRune(rs[0])|;
      assert s[n..] == Utf8(rs[1..]);
    }
  }

  /** A valid string can be cut in front of any ASCII byte. */
  lemma {:induction false} ValidSplit(s: string, n: nat)
    requires ValidUtf8(s) && n <= |s| && (n < |s| ==> s[n] < 0x80 as char)
    ensures ValidUtf8(s[..n]) && ValidUtf8(s[n..])
    decreases |s|
  {
    if n > 0 {
      CutRune(s, n);
      hide DecodeRune;
      var k := DecodeRune(s).size;
      ValidSplit(s[k..], n - k);
      assert s[..n][k..] == s[k..][..n - k];
      assert s[n..] == s[k..][n - k..];
    } else {
      assert s[n..] == s;
    }
  }

  lemma CutRune(s: string, n: nat)
    requires s != [] && DecodeRune(s) != Rune(RUNE_ERROR, 1)
    requires 0 < n <= |s| && (n < |s| ==> s[n] < 0x80 as char)
    ensures DecodeRune(s).size <= n && DecodeRune(s[..n]) == DecodeRune(s)
  {
  }

  // ---------------------------------------------------------------- UTF-16, big endian

  /** What encode appends for one code point. */
  function Utf16(r: nat): (b: string)
    requires IsScalar(r)
    ensures |b| == 2 || |b| == 4
    ensures forall i | 0 <= i < |b| :: b[i] < 256 as char
  {
    if r < 0x10000 then [(r / 256) as char, (r % 256) as char]
    else
      var hi, lo := 0xD800 + (r - 0x10000) / 1024, 0xDC00 + (r - 0x10000) % 1024;
      [(hi / 256) as char, (hi % 256) as char, (lo / 256) as char, (lo % 256) as char]
  }

  function Utf16s(rs: seq<nat>): (b: string)
    requires forall i | 0 <= i < |rs| :: IsScalar(rs[i])
    ensures |b| % 2 == 0 && |b| >= 2 * |rs|
    ensures forall i | 0 <= i < |b| :: b[i] < 256 as char
  {
    if rs == [] then [] else Utf16(rs[0]) + Utf16s(rs[1..])
  }

  function Word(b: string, i: nat): (r: nat)
    requires i + 1 < |b|
  {
    b[i] as nat * 256 + b[i + 1] as nat
  }

  predicate IsPrintable(r: nat) { 0x20 <= r <= 0x7E }

  /** Whole 16-bit units. */
  predicate Units(b: string) { |b| % 2 == 0 && forall i | 0 <= i < |b| :: b[i] < 256 as char }

  /** The loop of decode: UTF-16 to UTF-8. Lone surrogates and printable ASCII are refused. */
  function FromUtf16(b: string): (r: Option<string>)
    requires Units(b)
  {
    if b == [] then Some([])
    else
      var w := Word(b, 0);
      if 0xD800 <= w < 0xE000 then
        if |b| == 2 then None
        else
          var w2 := Word(b, 2);
          if !(w < 0xDC00 && 0xDC00 <= w2 < 0xE000) then None
          else
            match FromUtf16(b[4..])
            case None => None
            case Some(s) => Some(EncodeRune((w - 0xD800) * 1024 + (w2 - 0xDC00) + 0x10000) + s)
      else if IsPrintable(w) then None
      else
        match FromUtf16(b[2..])
        case None => None
        case Some(s) => Some(EncodeRune(w) + s)
  }

  function Prepend(a: string, r: Option<string>): (q: Option<string>) {
    match r
    case None => None
    case Some(s) => Some(a + s)
  }

  lemma PrependConcat(a: string, b: string, r: Option<string>)
    ensures Prepend(a, Prepend(b, r)) == Prepend(a + b, r) && Prepend("", r) == r
  {
    if r.Some? { assert a + (b + r.value) == (a + b) + r.value && "" + r.value == r.value; }
  }

  ghost predicate AllBytes(b: string) { forall i | 0 <= i < |b| :: b[i] < 256 as char }

  lemma FromUtf16Low(r: nat, b: string)
    requires IsScalar(r) && r < 0x10000 && !IsPrintable(r) && Units(b)
    ensures Units(Utf16(r) + b) && FromUtf16(Utf16(r) + b) == Prepend(EncodeRune(r), FromUtf16(b))
  {
    var u := Utf16(r) + b;
    assert u[0] == Utf16(r)[0] && u[1] == Utf16(r)[1] && u[2..] == b;
    assert Word(u, 0) == r;
    hide EncodeRune;
  }

  lemma FromUtf16Pair(u: string, w: nat, v: nat)
    requires |u| >= 4 && Units(u) && w == Word(u, 0) && v == Word(u, 2)
    requires 0xD800 <= w < 0xDC00 && 0xDC00 <= v < 0xE000
    ensures Units(u[4..])
    ensures FromUtf16(u) == Prepend(EncodeRune((w - 0xD800) * 1024 + (v - 0xDC00) + 0x10000), FromUtf16(u[4..]))
  {
    assert Units(u[4..]);
    hide EncodeRune, Word, Units;
  }

  lemma FromUtf16High(r: nat, b: string)
    requires 0x10000 <= r <= 0x10FFFF && Units(b)
    ensures Units(Utf16(r) + b) && FromUtf16(Utf16(r) + b) == Prepend(EncodeRune(r), FromUtf16(b))
  {
    var p, u := Utf16(r), Utf16(r) + b;
    SurrogatePair(r);
    hide EncodeRune, Utf16, FromUtf16;
    assert u[0] == p[0] && u[1] == p[1] && u[2] == p[2] && u[3] == p[3] && u[4..] == b;
    assert Word(u, 0) == Word(p, 0) && Word(u, 2) == Word(p, 2);
    FromUtf16Pair(u, Word(p, 0), Word(p, 2));
  }

  lemma {:induction false} Utf16RoundTrip(rs: seq<nat>)
    requires AllScalars(rs) && forall i | 0 <= i < |rs| :: !IsPrintable(rs[i])
    ensures FromUtf16(Utf16s(rs)) == Some(Utf8(rs))
    decreases |rs|
  {
    if rs != [] {
      hide FromUtf16, Utf16, EncodeRune;
      Utf16RoundTrip(rs[1..]);
      if rs[0] < 0x10000 { FromUtf16Low(rs[0], Utf16s(rs[1..])); } else { FromUtf16High(rs[0], Utf16s(rs[1..])); }
    }
  }

  lemma SurrogatePair(r: nat)
    requires 0x10000 <= r <= 0x10FFFF
    ensures var u := Utf16(r);
            && |u| == 4 && 0xD800 <= Word(u, 0) < 0xDC00 && 0xDC00 <= Word(u, 2) < 0xE000
            && (Word(u, 0) - 0xD800) * 1024 + (Word(u, 2) - 0xDC00) + 0x10000 == r
  {
  }

  // ---------------------------------------------------------------- base64

  /** The alphabet of section 5.1.3 of RFC 3501: "," in place of "/". */
  function B64Char(i: nat): (c: char)
    requires i < 64
    ensures 0x20 as char <= c <= 0x7E as char && c != '-' && c != '&' && c != '='
  {
    if i < 26 then i as char + 'A'
    else if i < 52 then (i - 26) as char + 'a'
    else if i < 62 then (i - 52) as char + '0'
    else if i == 62 then '+'
    else ','
  }

  function B64Index(c: char): (i: Option<nat>)
    ensures i.Some? ==> i.value < 64
  {
    if 'A' <= c <= 'Z' then Some((c - 'A') as nat)
    else if 'a' <= c <= 'z' then Some((c - 'a') as nat + 26)
    else if '0' <= c <= '9' then Some((c - '0') as nat + 52)
    else if c == '+' then Some(62)
    else if c == ',' then Some(63)
    else None
  }

  lemma B64IndexOfChar(i: nat)
    requires i < 64
    ensures B64Index(B64Char(i)) == Some(i)
  {
  }

  /** Three bytes as four characters. */
  function Quad(x: nat, y: nat, z: nat): (s: string)
    requires x < 256 && y < 256 && z < 256
    ensures |s| == 4
  {
    [B64Char(x / 4), B64Char(x % 4 * 16 + y / 16), B64Char(y % 16 * 4 + z / 64), B64Char(z % 64)]
  }

  /** Encoding.Encode, with padding. */
  function B64Encode(b: string): (s: string)
    requires forall i | 0 <= i < |b| :: b[i] < 256 as char
    decreases |b|
  {
    if b == [] then []
    else if |b| == 1 then Quad(b[0] as nat, 0, 0)[..2] + "=="
    else if |b| == 2 then Quad(b[0] as nat, b[1] as nat, 0)[..3] + "="
    else Quad(b[0] as nat, b[1] as nat, b[2] as nat) + B64Encode(b[3..])
  }

  /** Encoding.Decode: padding only at the very end; the bits it leaves over are ignored. */
  function B64Decode(s: string): (r: Option<string>)
    ensures r.Some? ==> |r.value| <= |s| / 4 * 3 && forall i | 0 <= i < |r.value| :: r.value[i] < 256 as char
    decreases |s|
  {
    if s == [] then Some([])
    else if |s| < 4 then None
    else
      match (B64Index(s[0]), B64Index(s[1]), B64Index(s[2]), B64Index(s[3]))
      case (Some(a), Some(b), Some(c), Some(d)) =>
        (match B64Decode(s[4..])
         case None => None
         case Some(r) => Some([(a * 4 + b / 16) as char, (b % 16 * 16 + c / 4) as char, (c % 4 * 64 + d) as char] + r))
      case (Some(a), Some(b), Some(c), None) =>
        if s[3] == '=' && |s| == 4 then Some([(a * 4 + b / 16) as char, (b % 16 * 16 + c / 4) as char]) else None
      case (Some(a), Some(b), None, _) =>
        if s[2] == '=' && s[3] == '=' && |s| == 4 then Some([(a * 4 + b / 16) as char]) else None
      case _ => None
  }

  lemma QuadIndices(x: nat, y: nat, z: nat)
    requires x < 256 && y < 256 && z < 256
    ensures var q := Quad(x, y, z);
            && B64Index(q[0]) == Some(x / 4) && B64Index(q[1]) == Some(x % 4 * 16 + y / 16)
            && B64Index(q[2]) == Some(y % 16 * 4 + z / 64) && B64Index(q[3]) == Some(z % 64)
  {
    B64IndexOfChar(x / 4);
    B64IndexOfChar(x % 4 * 16 + y / 16);
    B64IndexOfChar(y % 16 * 4 + z / 64);
    B64IndexOfChar(z % 64);
    hide B64Char, B64Index;
  }

  lemma QuadBytes(x: nat, y: nat, z: nat)
    requires x < 256 && y < 256 && z < 256
    ensures x / 4 * 4 + (x % 4 * 16 + y / 16) / 16 == x
    ensures (x % 4 * 16 + y / 16) % 16 * 16 + (y % 16 * 4 + z / 64) / 4 == y
    ensures (y % 16 * 4 + z / 64) % 4 * 64 + z % 64 == z
  {
  }

  lemma QuadDecodes(x: nat, y: nat, z: nat, t: string)
    requires x < 256 && y < 256 && z < 256
    ensures B64Decode(Quad(x, y, z) + t) == Prepend([x as char, y as char, z as char], B64Decode(t))
  {
    var q := Quad(x, y, z);
    QuadIndices(x, y, z);
    QuadBytes(x, y, z);
    hide Quad, B64Index;
    assert (q + t)[4..] == t;
    assert (q + t)[0] == q[0] && (q + t)[1] == q[1] && (q + t)[2] == q[2] && (q + t)[3] == q[3];
  }

  lemma TailDecodes(s: string, x: nat, y: nat, z: Option<nat>)
    requires |s| == 4 && B64Index(s[0]) == Some(x) && B64Index(s[1]) == Some(y) && B64Index(s[2]) == z
    requires s[3] == '=' && (z == None ==> s[2] == '=')
    ensures B64Decode(s) == match z
      case None => Some([(x * 4 + y / 16) as char])
      case Some(v) => Some([(x * 4 + y / 16) as char, (y % 16 * 16 + v / 4) as char])
  {
    assert B64Index('=') == None;
    hide B64Index;
  }

  lemma NoIndex()
    ensures B64Index('=') == None
  {
  }

  lemma OneByte(x: nat) returns (i: nat, j: nat)
    requires x < 256
    ensures var q := Quad(x, 0, 0); B64Index(q[0]) == Some(i) && B64Index(q[1]) == Some(j)
    ensures i * 4 + j / 16 == x
  {
    QuadIndices(x, 0, 0);
    QuadBytes(x, 0, 0);
    i, j := x / 4, x % 4 * 16 + 0 / 16;
  }

  lemma PaddedDecodes1(b: string)
    requires AllBytes(b) && |b| == 1
    ensures B64Decode(B64Encode(b)) == Some(b)
  {
    var x := b[0] as nat;
    NoIndex();
    hide Quad, B64Index, B64Decode;
    var i, j := OneByte(x);
    TailDecodes(B64Encode(b), i, j, None);
    assert b == [x as char];
  }

  lemma TwoBytes(x: nat, y: nat) returns (i: nat, j: nat, k: nat)
    requires x < 256 && y < 256
    ensures var q := Quad(x, y, 0);
            && B64Index(q[0]) == Some(i) && B64Index(q[1]) == Some(j) && B64Index(q[2]) == Some(k)
    ensures i * 4 + j / 16 == x && j % 16 * 16 + k / 4 == y
  {
    QuadIndices(x, y, 0);
    QuadBytes(x, y, 0);
    i, j, k := x / 4, x % 4 * 16 + y / 16, y % 16 * 4 + 0 / 64;
  }

  lemma PaddedDecodes2(b: string)
    requires AllBytes(b) && |b| == 2
    ensures B64Decode(B64Encode(b)) == Some(b)
  {
    var x, y := b[0] as nat, b[1] as nat;
    hide Quad, B64Index, B64Decode;
    var i, j, k := TwoBytes(x, y);
    TailDecodes(B64Encode(b), i, j, Some(k));
    assert b == [x as char, y as char];
  }

  /** The length of the encoding, and of its padding. */
  lemma {:induction false} B64Length(b: string)
    requires AllBytes(b)
    ensures |B64Encode(b)| == (|b| + 2) / 3 * 4
    decreases |b|
  {
    hide Quad;
    if |b| >= 3 { B64Length(b[3..]); }
  }

  lemma {:induction false} B64RoundTrip(b: string)
    requires AllBytes(b)
    ensures B64Decode(B64Encode(b)) == Some(b)
    decreases |b|
  {
    hide B64Decode, Quad;
    if |b| >= 3 {
      B64RoundTrip(b[3..]);
      QuadDecodes(b[0] as nat, b[1] as nat, b[2] as nat, B64Encode(b[3..]));
      assert b == [b[0], b[1], b[2]] + b[3..];
    } else if |b| == 2 {
      PaddedDecodes2(b);
    } else if |b| == 1 {
      PaddedDecodes1(b);
    } else {
      EmptyDecodes();
    }
  }

  lemma EmptyDecodes()
    ensures B64Decode([]) == Some([])
  {
  }
}
