/** The format of modified UTF-7, stated bit by bit after section 5.1.3 of RFC 3501 and RFC 2781. */
module Utf7Format {
  import opened Text
  import opened Unicode
  import opened Utf7

  const ALPHABET: string := "ABCDEFGHIJKLMNOPQRSTUVWXYZ" + "abcdefghijklmnopqrstuvwxyz" + "0123456789" + "+,"

  // ---------------------------------------------------------------- numbers written in digits

  /** The number that goes on from n with these digits in base 64. */
  function Num64(n: nat, ds: seq<nat>): (r: nat)
    decreases |ds|
  {
    if ds == [] then n else Num64(n * 64 + ds[0], ds[1..])
  }

  /** The same in base 65536. */
  function Num16(n: nat, us: seq<nat>): (r: nat)
    decreases |us|
  {
    if us == [] then n else Num16(n * 65536 + us[0], us[1..])
  }

  /** The same for bytes. */
  function Num8(n: nat, b: string): (r: nat)
    decreases |b|
  {
    if b == [] then n else Num8(n * 256 + b[0] as nat, b[1..])
  }

  function Pow2(k: nat): (p: nat) { if k == 0 then 1 else 2 * Pow2(k - 1) }

  // ---------------------------------------------------------------- the format

  /** The 16-bit units of code points: surrogate pairs beyond the first 65536. */
  function Units16(rs: seq<nat>): (us: seq<nat>)
    decreases |rs|
  {
    if rs == [] then []
    else if rs[0] <= 0xFFFF then [rs[0]] + Units16(rs[1..])
    else
      var v: int := rs[0] - 0x10000;
      [0xD800 + v / 0x400, 0xDC00 + v % 0x400] + Units16(rs[1..])
  }

  /** The characters are those of the alphabet at these positions. */
  ghost predicate Spells(seg: string, ds: seq<nat>) {
    |seg| == |ds| && forall i | 0 <= i < |ds| :: ds[i] < 64 && seg[i] == ALPHABET[ds[i]]
  }

  /** The characters, six bits each, are the units, 16 bits each and the high ones first, and then fewer
      than six zero bits. */
  ghost predicate IsBits(ds: seq<nat>, us: seq<nat>) {
    0 <= 6 * |ds| - 16 * |us| < 6 && Num64(0, ds) == Num16(0, us) * Pow2(6 * |ds| - 16 * |us|)
  }

  /** A base64 shift for these units. */
  ghost predicate ShiftFor(t: string, us: seq<nat>) {
    && |t| >= 2 && t[0] == '&' && t[|t| - 1] == '-'
    && exists ds :: Spells(t[1..|t| - 1], ds) && IsBits(ds, us)
  }

  /** The first n bytes are the leading run outside the printable ones. */
  ghost predicate LeadingRun(s: string, n: nat) {
    && 0 < n <= |s| && (forall i | 0 <= i < n :: !(' ' <= s[i] <= '~'))
    && (n < |s| ==> ' ' <= s[n] <= '~')
  }

  /** t is the modified UTF-7 of s. */
  ghost predicate Encodes(s: string, t: string)
    decreases |s|
  {
    if s == [] then t == []
    else if s[0] == '&' then |t| >= 2 && t[..2] == "&-" && Encodes(s[1..], t[2..])
    else if ' ' <= s[0] <= '~' then |t| >= 1 && t[0] == s[0] && Encodes(s[1..], t[1..])
    else exists n: nat, m: nat | LeadingRun(s, n) && m <= |t| ::
      ShiftFor(t[..m], Units16(Runes(s[..n]))) && Encodes(s[n..], t[m..])
  }

  // ---------------------------------------------------------------- what Encode writes

  lemma AlphabetAt(i: nat)
    requires i < 64
    ensures |ALPHABET| == 64 && B64Char(i) == ALPHABET[i]
  {
  }

  /** The positions in the alphabet of the characters that stand for some bytes. */
  function Sextets(b: string): (ds: seq<nat>)
    requires AllBytes(b)
    decreases |b|
  {
    if b == [] then []
    else
      var x, y, z := b[0] as nat, if |b| > 1 then b[1] as nat else 0, if |b| > 2 then b[2] as nat else 0;
      if |b| == 1 then [x / 4, x % 4 * 16]
      else if |b| == 2 then [x / 4, x % 4 * 16 + y / 16, y % 16 * 4]
      else [x / 4, x % 4 * 16 + y / 16, y % 16 * 4 + z / 64, z % 64] + Sextets(b[3..])
  }

  lemma QuadSpells(x: nat, y: nat, z: nat)
    requires x < 256 && y < 256 && z < 256
    ensures Spells(Quad(x, y, z), [x / 4, x % 4 * 16 + y / 16, y % 16 * 4 + z / 64, z % 64])
  {
    AlphabetAt(x / 4);
    AlphabetAt(x % 4 * 16 + y / 16);
    AlphabetAt(y % 16 * 4 + z / 64);
    AlphabetAt(z % 64);
    hide B64Char, ALPHABET;
  }

  lemma SpellsConcat(a: string, ds: seq<nat>, b: string, es: seq<nat>)
    requires |ALPHABET| == 64 && Spells(a, ds) && Spells(b, es)
    ensures Spells(a + b, ds + es)
  {
    hide ALPHABET;
  }

  lemma SpellsStart(a: string, ds: seq<nat>, n: nat)
    requires |ALPHABET| == 64 && Spells(a, ds) && n <= |a|
    ensures Spells(a[..n], ds[..n])
  {
    hide ALPHABET;
  }

  lemma {:induction false} BareSpells(b: string)
    requires AllBytes(b)
    ensures Spells(Bare(b), Sextets(b))
    decreases |b|
  {
    hide Quad, Spells, Bare, ALPHABET;
    AlphabetAt(0);
    if b == [] {
      BareNone();
      assert Spells([], []) by { SpellsNothing(); }
    } else if |b| == 1 {
      BareOneIs(b);
      QuadSpells(b[0] as nat, 0, 0);
      SpellsStart(Quad(b[0] as nat, 0, 0), [b[0] as nat / 4, b[0] as nat % 4 * 16 + 0 / 16, 0 % 16 * 4 + 0 / 64, 0 % 64], 2);
      var x := b[0] as nat;
      assert [x / 4, x % 4 * 16 + 0 / 16, 0 % 16 * 4 + 0 / 64, 0 % 64][..2] == [x / 4, x % 4 * 16];
    } else if |b| == 2 {
      var x, y := b[0] as nat, b[1] as nat;
      BareTwoIs(b);
      QuadSpells(x, y, 0);
      SpellsStart(Quad(x, y, 0), [x / 4, x % 4 * 16 + y / 16, y % 16 * 4 + 0 / 64, 0 % 64], 3);
      assert [x / 4, x % 4 * 16 + y / 16, y % 16 * 4 + 0 / 64, 0 % 64][..3] == [x / 4, x % 4 * 16 + y / 16, y % 16 * 4];
    } else {
      var x, y, z := b[0] as nat, b[1] as nat, b[2] as nat;
      BareSpells(b[3..]);
      BareStep(b);
      QuadSpells(x, y, z);
      SpellsConcat(Quad(x, y, z), [x / 4, x % 4 * 16 + y / 16, y % 16 * 4 + z / 64, z % 64], Bare(b[3..]), Sextets(b[3..]));
    }
  }

  lemma SpellsNothing()
    ensures Spells([], [])
  {
  }

  lemma BareOneIs(b: string)
    requires AllBytes(b) && |b| == 1
    ensures Bare(b) == Quad(b[0] as nat, 0, 0)[..2]
  {
    hide Quad;
  }

  lemma BareTwoIs(b: string)
    requires AllBytes(b) && |b| == 2
    ensures Bare(b) == Quad(b[0] as nat, b[1] as nat, 0)[..3]
  {
    hide Quad;
  }

  // three bytes and four characters go on with the same number

  lemma Num64Step(n: nat, ds: seq<nat>)
    requires ds != []
    ensures Num64(n, ds) == Num64(n * 64 + ds[0], ds[1..])
  {
  }

  lemma Num8Step(n: nat, b: string)
    requires b != []
    ensures Num8(n, b) == Num8(n * 256 + b[0] as nat, b[1..])
  {
  }

  lemma NumEnd(n: nat)
    ensures Num64(n, []) == Num8(n, []) == n
  {
  }

  lemma FourDigits(n: nat, ds: seq<nat>)
    requires |ds| >= 4
    ensures Num64(n, ds) == Num64((((n * 64 + ds[0]) * 64 + ds[1]) * 64 + ds[2]) * 64 + ds[3], ds[4..])
  {
    var a, b, c := ds[1..], ds[2..], ds[3..];
    assert a[1..] == b && b[1..] == c && c[1..] == ds[4..];
    hide Num64;
    Num64Step(n, ds);
    Num64Step(n * 64 + ds[0], a);
    Num64Step((n * 64 + ds[0]) * 64 + ds[1], b);
    Num64Step(((n * 64 + ds[0]) * 64 + ds[1]) * 64 + ds[2], c);
  }

  lemma ThreeBytes(n: nat, b: string)
    requires |b| >= 3
    ensures Num8(n, b) == Num8(((n * 256 + b[0] as nat) * 256 + b[1] as nat) * 256 + b[2] as nat, b[3..])
  {
    var c, d := b[1..], b[2..];
    assert c[1..] == d && d[1..] == b[3..];
    hide Num8;
    Num8Step(n, b);
    Num8Step(n * 256 + b[0] as nat, c);
    Num8Step((n * 256 + b[0] as nat) * 256 + b[1] as nat, d);
  }

  lemma SameGroup(n: nat, x: nat, y: nat, z: nat)
    requires x < 256 && y < 256 && z < 256
    ensures (((n * 64 + x / 4) * 64 + (x % 4 * 16 + y / 16)) * 64 + (y % 16 * 4 + z / 64)) * 64 + z % 64
            == ((n * 256 + x) * 256 + y) * 256 + z
  {
    QuadBytes(x, y, z);
  }

  /** How many zero bits fill up the last character. */
  function Filling(n: nat): (k: nat) { if n % 3 == 0 then 0 else if n % 3 == 1 then 4 else 2 }

  lemma {:induction false} SextetsValue(n: nat, b: string)
    requires AllBytes(b)
    ensures 6 * |Sextets(b)| == 8 * |b| + Filling(|b|)
    ensures Num64(n, Sextets(b)) == Num8(n, b) * Pow2(Filling(|b|))
    decreases |b|
  {
    assert Pow2(0) == 1 && Pow2(1) == 2 && Pow2(2) == 4 && Pow2(3) == 8 && Pow2(4) == 16;
    hide Pow2;
    if |b| == 1 {
      ShortValue1(n, b[0] as nat, b);
    } else if |b| == 2 {
      ShortValue2(n, b[0] as nat, b[1] as nat, b);
    } else if |b| > 2 {
      var x, y, z := b[0] as nat, b[1] as nat, b[2] as nat;
      hide Num64, Num8;
      FourDigits(n, Sextets(b));
      ThreeBytes(n, b);
      SameGroup(n, x, y, z);
      SextetsValue(((n * 256 + x) * 256 + y) * 256 + z, b[3..]);
      assert Sextets(b)[4..] == Sextets(b[3..]);
      assert Filling(|b|) == Filling(|b| - 3);
    }
  }

  lemma ShortValue1(n: nat, x: nat, b: string)
    requires |b| == 1 && x == b[0] as nat && x < 256
    ensures Num64(n, [x / 4, x % 4 * 16]) == Num8(n, b) * 16
  {
    var ds := [x / 4, x % 4 * 16];
    assert ds[1..] == [x % 4 * 16] && [x % 4 * 16][1..] == [] && b[1..] == [];
    hide Num64, Num8;
    Num64Step(n, ds);
    Num64Step(n * 64 + x / 4, [x % 4 * 16]);
    NumEnd((n * 64 + x / 4) * 64 + x % 4 * 16);
    Num8Step(n, b);
    NumEnd(n * 256 + x);
  }

  lemma ShortValue2(n: nat, x: nat, y: nat, b: string)
    requires |b| == 2 && x == b[0] as nat && y == b[1] as nat && x < 256 && y < 256
    ensures Num64(n, [x / 4, x % 4 * 16 + y / 16, y % 16 * 4]) == Num8(n, b) * 4
  {
    var ds := [x / 4, x % 4 * 16 + y / 16, y % 16 * 4];
    assert ds[1..][1..] == [y % 16 * 4] && [y % 16 * 4][1..] == [];
    assert b[1..] == [b[1]] && [b[1]][1..] == [];
    hide Num64, Num8;
    var d := x % 4 * 16 + y / 16;
    Num64Step(n, ds);
    Num64Step(n * 64 + x / 4, ds[1..]);
    Num64Step((n * 64 + x / 4) * 64 + d, [y % 16 * 4]);
    NumEnd(((n * 64 + x / 4) * 64 + d) * 64 + y % 16 * 4);
    Num8Step(n, b);
    Num8Step(n * 256 + x, [b[1]]);
    NumEnd((n * 256 + x) * 256 + y);
  }

  /** The bytes are the units, the high byte of each first. */
  lemma {:induction false} UnitsValue(n: nat, rs: seq<nat>)
    requires AllScalars(rs)
    ensures |Utf16s(rs)| == 2 * |Units16(rs)|
    ensures Num8(n, Utf16s(rs)) == Num16(n, Units16(rs))
    decreases |rs|
  {
    if rs != [] {
      hide Num8, Num16, Utf16;
      if rs[0] <= 0xFFFF {
        LowBytes(rs[0]);
        var u := rs[0];
        UnitsValue(n * 65536 + u, rs[1..]);
        LowValue(n, Utf16(u), Utf16s(rs[1..]), u, Units16(rs[1..]));
      } else {
        HighBytes(rs[0]);
        var v: int := rs[0] - 0x10000;
        var hi, lo := 0xD800 + v / 0x400, 0xDC00 + v % 0x400;
        UnitsValue((n * 65536 + hi) * 65536 + lo, rs[1..]);
        HighValue(n, Utf16(rs[0]), Utf16s(rs[1..]), hi, lo, Units16(rs[1..]));
      }
    }
  }

  lemma UnitBytes(n: nat, b: string, us: seq<nat>, u: nat)
    requires |b| >= 2 && us != [] && us[0] == u == b[0] as nat * 256 + b[1] as nat
    ensures Num8(n, b) == Num8(n * 65536 + u, b[2..]) && Num16(n, us) == Num16(n * 65536 + u, us[1..])
  {
    assert b[1..][1..] == b[2..];
    hide Num8;
    Num8Step(n, b);
    Num8Step(n * 256 + b[0] as nat, b[1..]);
  }

  lemma LowValue(n: nat, b: string, rest: string, u: nat, us: seq<nat>)
    requires |b| == 2 && u == b[0] as nat * 256 + b[1] as nat
    ensures Num8(n, b + rest) == Num8(n * 65536 + u, rest) && Num16(n, [u] + us) == Num16(n * 65536 + u, us)
  {
    hide Num8, Num16;
    assert (b + rest)[2..] == rest && ([u] + us)[1..] == us;
    UnitBytes(n, b + rest, [u] + us, u);
  }

  lemma HighValue(n: nat, b: string, rest: string, u: nat, v: nat, us: seq<nat>)
    requires |b| == 4 && u == b[0] as nat * 256 + b[1] as nat && v == b[2] as nat * 256 + b[3] as nat
    ensures Num8(n, b + rest) == Num8((n * 65536 + u) * 65536 + v, rest)
    ensures Num16(n, [u, v] + us) == Num16((n * 65536 + u) * 65536 + v, us)
  {
    hide Num8, Num16;
    var c := b[2..];
    assert b + rest == b[..2] + (c + rest) && [u, v] + us == [u] + ([v] + us);
    LowValue(n, b[..2], c + rest, u, [v] + us);
    LowValue(n * 65536 + u, c, rest, v, us);
  }

  lemma LowBytes(r: nat)
    requires IsScalar(r) && r <= 0xFFFF
    ensures |Utf16(r)| == 2 && Utf16(r)[0] as nat * 256 + Utf16(r)[1] as nat == r
  {
  }

  lemma HighBytes(r: nat)
    requires IsScalar(r) && r > 0xFFFF
    ensures var u := Utf16(r);
            && |u| == 4 && u[0] as nat * 256 + u[1] as nat == 0xD800 + (r - 0x10000) / 0x400
            && u[2] as nat * 256 + u[3] as nat == 0xDC00 + (r - 0x10000) % 0x400
  {
  }

  /** What encode writes for a run is a shift for its code points. */
  lemma ShiftedIs(run: string)
    ensures ShiftFor(Shifted(run), Units16(Runes(run)))
  {
    hide Bare, Utf16s, Runes, Units16, Sextets, Spells, Num64, Num16, Num8;
    var rs := Runes(run);
    var b, us := Utf16s(rs), Units16(rs);
    var t, ds := Shifted(run), Sextets(b);
    BareSpells(b);
    SextetsValue(0, b);
    UnitsValue(0, rs);
    assert t[1..|t| - 1] == Bare(b);
    assert 6 * |ds| - 16 * |us| == Filling(|b|);
    assert Spells(t[1..|t| - 1], ds) && IsBits(ds, us);
  }

  lemma RunIsLeading(s: string)
    requires s != [] && !Printable(s[0])
    ensures LeadingRun(s, RunLength(s))
  {
  }

  /** For every string, what Encode writes is its modified UTF-7. */
  lemma {:induction false} EncodeEncodes(s: string)
    ensures Encodes(s, EncodeText(s))
    decreases |s|
  {
    if s != [] {
      var t := EncodeText(s);
      hide EncodeText;
      if Printable(s[0]) {
        EncodePlain(s);
        EncodeEncodes(s[1..]);
        assert t[|PlainText(s[0])|..] == EncodeText(s[1..]);
      } else {
        var n := RunLength(s);
        EncodeRun(s, n);
        RunIsLeading(s);
        ShiftedIs(s[..n]);
        EncodeEncodes(s[n..]);
        hide ShiftFor, Shifted, RunLength, Units16;
        var m := |Shifted(s[..n])|;
        assert t[..m] == Shifted(s[..n]) && t[m..] == EncodeText(s[n..]);
      }
    }
  }

  // ---------------------------------------------------------------- there is only one

  lemma {:induction false} Num64Unique(n: nat, ds: seq<nat>, k: nat, es: seq<nat>)
    requires |ds| == |es| && (forall i | 0 <= i < |ds| :: ds[i] < 64 && es[i] < 64) && Num64(n, ds) == Num64(k, es)
    ensures n == k && ds == es
    decreases |ds|
  {
    if ds != [] {
      Num64Unique(n * 64 + ds[0], ds[1..], k * 64 + es[0], es[1..]);
      assert ds == [ds[0]] + ds[1..] && es == [es[0]] + es[1..];
    }
  }

  lemma ShiftUnique(t: string, u: string, us: seq<nat>)
    requires ShiftFor(t, us) && ShiftFor(u, us)
    ensures t == u
  {
    hide Num64, Num16, Pow2, ALPHABET;
    var ds :| Spells(t[1..|t| - 1], ds) && IsBits(ds, us);
    var es :| Spells(u[1..|u| - 1], es) && IsBits(es, us);
    assert |ds| == |es|;
    Num64Unique(0, ds, 0, es);
    var a, b := t[1..|t| - 1], u[1..|u| - 1];
    assert a == b;
    assert t == [t[0]] + a + [t[|t| - 1]] && u == [u[0]] + b + [u[|u| - 1]];
  }

  lemma RunUnique(s: string, n: nat, k: nat)
    requires LeadingRun(s, n) && LeadingRun(s, k)
    ensures n == k
  {
  }

  lemma RunPart(s: string, t: string) returns (n: nat, m: nat)
    requires Encodes(s, t) && s != [] && !(' ' <= s[0] <= '~')
    ensures LeadingRun(s, n) && 0 < n <= |s| && m <= |t|
    ensures ShiftFor(t[..m], Units16(Runes(s[..n]))) && Encodes(s[n..], t[m..])
  {
    hide ShiftFor, Units16, Runes;
    n, m :| LeadingRun(s, n) && m <= |t| && ShiftFor(t[..m], Units16(Runes(s[..n]))) && Encodes(s[n..], t[m..]);
  }

  lemma {:induction false} EncodesUnique(s: string, t: string, u: string)
    requires Encodes(s, t) && Encodes(s, u)
    ensures t == u
    decreases |s|
  {
    hide Encodes, ShiftFor, Units16, Runes;
    if s == [] {
      NothingEncodes(t);
      NothingEncodes(u);
    } else if ' ' <= s[0] <= '~' {
      var p := if s[0] == '&' then "&-" else [s[0]];
      PlainPart(s, t);
      PlainPart(s, u);
      EncodesUnique(s[1..], t[|p|..], u[|p|..]);
      SameParts(t, u, |p|, |p|);
    } else {
      var n, m := RunPart(s, t);
      var k, p := RunPart(s, u);
      RunUnique(s, n, k);
      hide LeadingRun;
      ShiftUnique(t[..m], u[..p], Units16(Runes(s[..n])));
      EncodesUnique(s[n..], t[m..], u[p..]);
      SameParts(t, u, m, p);
    }
  }

  lemma SameParts(t: string, u: string, m: nat, p: nat)
    requires m <= |t| && p <= |u| && t[..m] == u[..p] && t[m..] == u[p..]
    ensures t == u
  {
    assert t == t[..m] + t[m..] && u == u[..p] + u[p..];
  }

  lemma NothingEncodes(t: string)
    requires Encodes([], t)
    ensures t == []
  {
  }

  lemma PlainPart(s: string, t: string)
    requires Encodes(s, t) && s != [] && ' ' <= s[0] <= '~'
    ensures var p := if s[0] == '&' then "&-" else [s[0]];
            |p| <= |t| && t[..|p|] == p && Encodes(s[1..], t[|p|..])
  {
    hide ShiftFor, Units16, Runes;
  }

  /** The modified UTF-7 of a string is what Encode writes, and nothing else. */
  lemma EncodeExact(s: string, t: string)
    ensures Encodes(s, t) <==> t == EncodeText(s)
  {
    hide Encodes, EncodeText;
    EncodeEncodes(s);
    if Encodes(s, t) { EncodesUnique(s, t, EncodeText(s)); }
  }

  /** So a name in modified UTF-7 is decoded to itself. */
  lemma DecodeEncodes(s: string, t: string)
    requires ValidUtf8(s) && Encodes(s, t)
    ensures DecodeText(t) == Some(s)
  {
    hide Encodes, EncodeText, DecodeText, ValidUtf8;
    EncodeExact(s, t);
    EncodeRoundTrip(s);
  }

  /** Every character between the ampersand and the dash of a shift is a letter, a digit, "+" or ",". */
  lemma {:induction false} ShiftAlphabet(s: string, i: nat, j: nat)
    requires IsShift(EncodeText(s), i, j)
    ensures forall k | i < k < j :: EncodeText(s)[k] in ALPHABET
    decreases |s|, 0
  {
    hide EncodeText, ALPHABET;
    EmptyText();
    if s != [] && Printable(s[0]) {
      var a, t := PlainText(s[0]), EncodeText(s[1..]);
      EncodePlain(s);
      if i < |a| { PlainNoShift(s[0], t, i, j); }
      MovedAlphabet(s[1..], a, t, i, j);
    } else if s != [] {
      var n := RunLength(s);
      var b, t := Utf16s(Runes(s[..n])), EncodeText(s[n..]);
      EncodeRun(s, n);
      BareSpells(b);
      BareParts(b);
      Base64Bytes(Bare(b));
      hide Bare, Utf16s, Runes, RunLength, B64Encode;
      if i < |Bare(b)| + 2 {
        FirstAlphabet(Bare(b), Sextets(b), t, i, j);
      } else {
        MovedAlphabet(s[n..], Shifted(s[..n]), t, i, j);
      }
    }
  }

  lemma EmptyText()
    ensures EncodeText([]) == []
  {
  }

  lemma {:induction false} MovedAlphabet(s: string, a: string, t: string, i: nat, j: nat)
    requires t == EncodeText(s) && |a| <= i && IsShift(a + t, i, j)
    ensures forall k | i < k < j :: (a + t)[k] in ALPHABET
    decreases |s|, 1
  {
    hide EncodeText, ALPHABET;
    ShiftMoves(a, t, i, j);
    ShiftAlphabet(s, i - |a|, j - |a|);
    forall k | i < k < j ensures (a + t)[k] in ALPHABET { assert (a + t)[k] == t[k - |a|]; }
  }

  lemma FirstAlphabet(seg: string, ds: seq<nat>, t: string, i: nat, j: nat)
    requires Spells(seg, ds) && forall k | 0 <= k < |seg| :: Printable(seg[k]) && seg[k] != '-' && seg[k] != '&'
    requires i < |seg| + 2 && IsShift("&" + seg + "-" + t, i, j)
    ensures forall k | i < k < j :: ("&" + seg + "-" + t)[k] in ALPHABET
  {
    AlphabetAt(0);
    hide ALPHABET;
    ShiftedShift(seg, t, i, j);
    var u := "&" + seg + "-" + t;
    forall k | i < k < j ensures u[k] in ALPHABET {
      assert u[k] == seg[k - 1] == ALPHABET[ds[k - 1]];
    }
  }

  // ---------------------------------------------------------------- what Decode accepts

  /** The decoder knows the characters of the alphabet by their positions, and no others. */
  lemma IndexIs(c: char, i: nat)
    ensures B64Index(c) == Some(i) <==> i < |ALPHABET| && ALPHABET[i] == c
  {
    AlphabetAt(0);
    if i < 64 {
      AlphabetAt(i);
      B64IndexOfChar(i);
    }
    assert B64Index(c).Some? ==> B64Char(B64Index(c).value) == c;
    hide ALPHABET;
  }

  lemma {:induction false} DecodedChars(s: string)
    requires s != [] && B64Decode(s).Some?
    ensures |s| >= 4 && (forall i | 0 <= i < |s| - 2 :: B64Index(s[i]).Some?)
    ensures s[|s| - 1] == '=' || (B64Index(s[|s| - 1]).Some? && B64Index(s[|s| - 2]).Some?)
    ensures s[|s| - 2] == '=' || B64Index(s[|s| - 2]).Some?
    decreases |s|
  {
    hide B64Index;
    if |s| > 4 {
      DecodedChars(s[4..]);
      forall i | 0 <= i < |s| - 2 ensures B64Index(s[i]).Some? { assert i >= 4 ==> s[i] == s[4..][i - 4]; }
    }
  }

  /** decode refuses every segment with a character outside the alphabet. */
  lemma SegmentAlphabet(seg: string)
    requires seg != [] && SegmentText(seg).Some?
    ensures forall i | 0 <= i < |seg| :: seg[i] in ALPHABET
  {
    hide B64Decode, B64Index, ALPHABET, FromUtf16;
    var s := Padded(seg);
    DecodedChars(s);
    NoIndex();
    NoIndexOfZero();
    assert forall i | 0 <= i < |seg| :: s[i] == seg[i];
    forall i | 0 <= i < |seg| ensures seg[i] in ALPHABET {
      assert B64Index(seg[i]).Some?;
      IndexIs(seg[i], B64Index(seg[i]).value);
    }
  }

  lemma NoIndexOfZero()
    ensures B64Index(0 as char) == None
  {
  }
}
