/** The written forms of numbers, strings, lists, envelopes and body structures.

    They are stated against the grammar of section 9 of RFC 9051, in terms of
    literal texts and of items joined by single spaces. */
module WireForms {
  import opened Text
  import opened NumSet
  import opened NumSetText
  import opened Wire
  import opened BodyParams
  import opened Envelope
  import opened BodyStructure

  // ---------------------------------------------------------------- numbers and case

  const TEN: string := "0123456789"

  /** The number that goes on from n with these decimal digits. */
  function Num10(n: nat, t: string): (r: nat)
    decreases |t|
  {
    if t == [] then n else Num10(n * 10 + IndexOf(TEN, t[0]), t[1..])
  }

  /** t is n in decimal, without leading zeros. */
  ghost predicate IsDecimal(t: string, n: nat) {
    && t != [] && (forall i | 0 <= i < |t| :: t[i] in TEN) && (|t| > 1 ==> t[0] != '0')
    && Num10(0, t) == n
  }

  lemma DigitAt(c: char, d: nat)
    requires d < 10 && c == d as char + '0'
    ensures c in TEN && IndexOf(TEN, c) == d
  {
    assert TEN[d] == c && c !in TEN[..d];
    IndexUnique(TEN, c, d);
  }

  lemma {:induction false} Num10Snoc(n: nat, t: string, c: char)
    ensures Num10(n, t + [c]) == Num10(n, t) * 10 + IndexOf(TEN, c)
    decreases |t|
  {
    hide IndexOf, TEN;
    if t == [] {
      assert t + [c] == [c] && [c][1..] == [];
    } else {
      Num10Snoc(n * 10 + IndexOf(TEN, t[0]), t[1..], c);
      assert (t + [c])[1..] == t[1..] + [c] && (t + [c])[0] == t[0];
    }
  }

  lemma OneDigit(c: char, d: nat)
    requires c in TEN && IndexOf(TEN, c) == d
    ensures IsDecimal([c], d)
  {
    hide IndexOf, TEN;
    Num10Snoc(0, [], c);
    assert [] + [c] == [c];
  }

  lemma MoreDigits(t: string, n: nat, c: char, d: nat)
    requires IsDecimal(t, n) && t[0] != '0' && c in TEN && IndexOf(TEN, c) == d
    ensures IsDecimal(t + [c], n * 10 + d)
  {
    hide IndexOf, TEN, Num10;
    Num10Snoc(0, t, c);
  }

  lemma {:induction false} DigitsForm(n: nat)
    ensures IsDecimal(Digits(n), n)
    decreases n
  {
    hide IndexOf, TEN, IsDecimal;
    if n < 10 {
      DigitAt(n as char + '0', n);
      OneDigit(n as char + '0', n);
    } else {
      var c := (n % 10) as char + '0';
      DigitsForm(n / 10);
      DigitAt(c, n % 10);
      MoreDigits(Digits(n / 10), n / 10, c, n % 10);
    }
  }

  /** Lower and Upper change exactly the letters of the other case. */
  lemma CaseForm(c: char)
    ensures var lower, upper := "abcdefghijklmnopqrstuvwxyz", "ABCDEFGHIJKLMNOPQRSTUVWXYZ";
            && (forall i | 0 <= i < 26 :: LowerChar(upper[i]) == lower[i] && UpperChar(lower[i]) == upper[i])
            && (c !in upper ==> LowerChar(c) == c) && (c !in lower ==> UpperChar(c) == c)
  {
    var lower, upper := "abcdefghijklmnopqrstuvwxyz", "ABCDEFGHIJKLMNOPQRSTUVWXYZ";
    forall i | 0 <= i < 26 ensures upper[i] == i as char + 'A' && lower[i] == i as char + 'a' {
      LetterAt(i);
    }
    if 'A' <= c <= 'Z' { assert upper[(c - 'A') as int] == c; }
    if 'a' <= c <= 'z' { assert lower[(c - 'a') as int] == c; }
  }

  lemma LetterAt(i: nat)
    requires i < 26
    ensures "ABCDEFGHIJKLMNOPQRSTUVWXYZ"[i] == i as char + 'A' && "abcdefghijklmnopqrstuvwxyz"[i] == i as char + 'a'
  {
  }

  // ---------------------------------------------------------------- strings

  /** u is s with a backslash in front of every quote and backslash. */
  ghost predicate QuotedChars(u: string, s: string)
    decreases |s|
  {
    if s == [] then u == []
    else if s[0] == '"' || s[0] == '\\' then |u| >= 2 && u[0] == '\\' && u[1] == s[0] && QuotedChars(u[2..], s[1..])
    else |u| >= 1 && u[0] == s[0] && QuotedChars(u[1..], s[1..])
  }

  ghost predicate IsQuoted(t: string, s: string) {
    |t| >= 2 && t[0] == '"' && t[|t| - 1] == '"' && QuotedChars(t[1..|t| - 1], s)
  }

  ghost predicate IsLiteral(t: string, s: string, plus: bool) {
    exists n: string :: IsDecimal(n, |s|) && t == "{" + n + (if plus then "+" else "") + "}\r\n" + s
  }

  lemma {:induction false} QuotedSnoc(u: string, s: string, c: char)
    requires QuotedChars(u, s)
    ensures QuotedChars(u + (if c == '"' || c == '\\' then ['\\', c] else [c]), s + [c])
    decreases |s|
  {
    var v := if c == '"' || c == '\\' then ['\\', c] else [c];
    if s == [] {
      assert u + v == v && s + [c] == [c] && [c][1..] == [] && v[|v|..] == [];
    } else {
      var k := if s[0] == '"' || s[0] == '\\' then 2 else 1;
      QuotedSnoc(u[k..], s[1..], c);
      assert (u + v)[k..] == u[k..] + v && (s + [c])[1..] == s[1..] + [c];
    }
  }

  lemma {:induction false} EscapedForm(s: string)
    ensures QuotedChars(Escaped(s), s)
    decreases |s|
  {
    if s != [] {
      var front, c := s[..|s| - 1], s[|s| - 1];
      EscapedForm(front);
      QuotedSnoc(Escaped(front), front, c);
      assert front + [c] == s;
      assert Escaped(s) == Escaped(front) + (if c == '"' || c == '\\' then ['\\', c] else [c]);
    }
  }

  /** A string is quoted when it is short and holds no NUL, CR or LF, and no byte above 127 unless UTF-8 may
      be quoted; otherwise it is a literal, without waiting exactly where the extensions allow it. */
  lemma StringForm(e: Enc, s: string)
    ensures if |s| <= 4096 && forall i | 0 <= i < |s| :: s[i] !in [0 as char, '\r', '\n'] && (s[i] as nat < 128 || e.quotedUTF8)
            then IsQuoted(StringText(e, s), s)
            else IsLiteral(StringText(e, s), s, e.client && (e.literalPlus || (e.literalMinus && |s| <= 4096)))
  {
    if ValidQuoted(e, s) {
      QuotedForm(s);
    } else {
      LiteralForm(e, s);
    }
    hide QuotedText, LiteralText, IsQuoted, IsLiteral;
  }

  lemma QuotedForm(s: string)
    ensures IsQuoted(QuotedText(s), s)
  {
    EscapedForm(s);
    hide Escaped;
    assert QuotedText(s)[1..|Escaped(s)| + 1] == Escaped(s);
  }

  lemma LiteralForm(e: Enc, s: string)
    ensures IsLiteral(LiteralText(e, s), s, NonSync(e, |s|))
  {
    DigitsForm(|s|);
    hide Digits, IsDecimal, NonSync;
    assert ['{'] == "{" && ['+'] == "+";
    assert IsDecimal(Digits(|s|), |s|);
  }

  /** An optional string is NIL when it is empty. */
  lemma NStringForm(e: Enc, s: string)
    ensures NStringText(e, s) == if |s| == 0 then "NIL" else StringText(e, s)
  {
  }

  // ---------------------------------------------------------------- number sets

  ghost predicate IsNumber(t: string, n: uint32) { if n == 0 then t == "*" else IsDecimal(t, n) }

  /** A range is one number, or two with a colon; zero is the star. */
  lemma RangeForm(r: Range)
    ensures if r.start == r.stop then IsNumber(RangeText(r), r.start)
            else exists a, b :: IsNumber(a, r.start) && IsNumber(b, r.stop) && RangeText(r) == a + ":" + b
  {
    DigitsForm(r.start);
    DigitsForm(r.stop);
    hide Digits, IsDecimal;
    var a, b := NumText(r.start), NumText(r.stop);
    assert IsNumber(a, r.start) && IsNumber(b, r.stop);
  }

  // ---------------------------------------------------------------- lists

  function Strings(e: Enc, l: seq<string>): (r: seq<string>)
    ensures |r| == |l| && forall i | 0 <= i < |l| :: r[i] == StringText(e, l[i])
  {
    seq(|l|, i requires 0 <= i < |l| => StringText(e, l[i]))
  }

  function NStrings(e: Enc, l: seq<string>): (r: seq<string>)
    ensures |r| == |l| && forall i | 0 <= i < |l| :: r[i] == NStringText(e, l[i])
  {
    seq(|l|, i requires 0 <= i < |l| => NStringText(e, l[i]))
  }

  function InParens(items: seq<string>): (r: string)
    requires items != []
  {
    "(" + Join(items, ' ') + ")"
  }

  lemma JoinCons(x: string, items: seq<string>)
    requires items != []
    ensures Join([x] + items, ' ') == x + (" " + Join(items, ' '))
  {
    assert ([x] + items)[1..] == items;
    assert [' '] == " ";
  }

  lemma {:induction false} JoinParts(xs: seq<string>, ys: seq<string>)
    requires xs != [] && ys != []
    ensures Join(xs + ys, ' ') == Join(xs, ' ') + (" " + Join(ys, ' '))
    decreases |xs|
  {
    assert [' '] == " ";
    if |xs| == 1 {
      assert xs + ys == [xs[0]] + ys;
      JoinCons(xs[0], ys);
    } else {
      JoinParts(xs[1..], ys);
      assert xs + ys == [xs[0]] + (xs[1..] + ys) && xs == [xs[0]] + xs[1..];
      JoinCons(xs[0], xs[1..] + ys);
      JoinCons(xs[0], xs[1..]);
    }
  }

  lemma {:induction false} ItemsForm(e: Enc, l: seq<string>)
    requires l != []
    ensures ItemsText(e, l) == Join(Strings(e, l), ' ') + ")"
    decreases |l|
  {
    hide StringText;
    if |l| > 1 {
      ItemsForm(e, l[1..]);
      assert Strings(e, l) == [StringText(e, l[0])] + Strings(e, l[1..]);
      JoinCons(StringText(e, l[0]), Strings(e, l[1..]));
    }
  }

  /** A list of strings: NIL, or the strings in parentheses with single spaces. */
  lemma ListForm(e: Enc, l: seq<string>)
    ensures ListText(e, l) == if l == [] then "NIL" else InParens(Strings(e, l))
  {
    if l != [] { ItemsForm(e, l); }
    hide ItemsText, Strings;
  }

  lemma {:induction false} FieldsForm(e: Enc, l: seq<string>)
    requires l != []
    ensures FieldsText(e, l) == Join(NStrings(e, l), ' ')
    decreases |l|
  {
    hide NStringText;
    if |l| > 1 {
      FieldsForm(e, l[1..]);
      assert NStrings(e, l) == [NStringText(e, l[0])] + NStrings(e, l[1..]);
      JoinCons(NStringText(e, l[0]), NStrings(e, l[1..]));
    }
  }

  // ---------------------------------------------------------------- parameters

  lemma {:induction false} FlatForm(keys: seq<string>, p: Params)
    requires forall k | k in keys :: k in p
    ensures |Flat(keys, p)| == 2 * |keys|
    ensures forall i | 0 <= i < |keys| :: Flat(keys, p)[2 * i] == keys[i] && Flat(keys, p)[2 * i + 1] == p[keys[i]]
    decreases |keys|
  {
    if keys != [] {
      assert forall k | k in keys[1..] :: k in keys;
      FlatForm(keys[1..], p);
      forall i | 0 <= i < |keys| ensures Flat(keys, p)[2 * i] == keys[i] && Flat(keys, p)[2 * i + 1] == p[keys[i]] {
        if i > 0 {
          assert Flat(keys[1..], p)[2 * (i - 1)] == keys[1..][i - 1] && Flat(keys[1..], p)[2 * (i - 1) + 1] == p[keys[1..][i - 1]];
        }
      }
    }
  }

  /** Parameters: NIL for none, or the keys in ascending order, each followed by its value. */
  lemma ParamsForm(e: Enc, p: Params) returns (keys: seq<string>, l: seq<string>)
    ensures Sorted(keys) && forall k :: k in keys <==> k in p
    ensures |l| == 2 * |keys| && forall i | 0 <= i < |keys| :: l[2 * i] == keys[i] && l[2 * i + 1] == p[keys[i]]
    ensures ParamsText(e, p) == if p == map[] then "NIL" else InParens(Strings(e, l))
  {
    keys := SortedKeys(p.Keys);
    l := Flat(keys, p);
    FlatForm(keys, p);
    ListForm(e, l);
    assert p == map[] <==> keys == [] by {
      assert keys != [] ==> keys[0] in keys;
      assert keys == [] ==> forall k :: k !in p;
    }
    hide ListText, Flat, SortedKeys, Sorted, InParens;
  }

  // ---------------------------------------------------------------- envelopes

  /** An address: name, nothing, mailbox and host. */
  lemma AddressForm(e: Enc, a: Address)
    ensures AddressText(e, a) == InParens([NStringText(e, e.encode(a.name)), "NIL", NStringText(e, a.mailbox), NStringText(e, a.host)])
  {
    var l := AddressFields(e, a);
    FieldsForm(e, l);
    assert NStringText(e, "") == "NIL";
    hide NStringText, FieldsText, Join;
    assert NStrings(e, l) == [NStringText(e, e.encode(a.name)), "NIL", NStringText(e, a.mailbox), NStringText(e, a.host)];
  }

  function AddressTexts(e: Enc, l: seq<Address>): (r: seq<string>)
    ensures |r| == |l| && forall i | 0 <= i < |l| :: r[i] == AddressText(e, l[i])
  {
    seq(|l|, i requires 0 <= i < |l| => AddressText(e, l[i]))
  }

  lemma {:induction false} AddressesForm(e: Enc, l: seq<Address>)
    requires l != []
    ensures AddressesText(e, l) == Join(AddressTexts(e, l), ' ') + ")"
    decreases |l|
  {
    hide AddressText;
    if |l| > 1 {
      AddressesForm(e, l[1..]);
      assert AddressTexts(e, l) == [AddressText(e, l[0])] + AddressTexts(e, l[1..]);
      JoinCons(AddressText(e, l[0]), AddressTexts(e, l[1..]));
    }
  }

  lemma AddressListForm(e: Enc, l: seq<Address>)
    ensures AddressListText(e, l) == if l == [] then "NIL" else InParens(AddressTexts(e, l))
  {
    if l != [] { AddressesForm(e, l); }
    hide AddressesText, AddressTexts;
  }

  lemma {:induction false} ListsForm(e: Enc, ls: seq<seq<Address>>, items: seq<string>, rest: seq<string>)
    requires |items| == |ls| && rest != [] && forall i | 0 <= i < |ls| :: items[i] == AddressListText(e, ls[i])
    ensures ListsText(e, ls) + Join(rest, ' ') == Join(items + rest, ' ')
    decreases |ls|
  {
    hide AddressListText;
    if ls == [] {
      assert items + rest == rest;
    } else {
      ListsForm(e, ls[1..], items[1..], rest);
      assert items + rest == [items[0]] + (items[1..] + rest);
      JoinCons(items[0], items[1..] + rest);
    }
  }

  /** The fields of an envelope in the order of RFC 9051, with from in place of a missing sender or reply-to. */
  function EnvelopeItems(e: Enc, v: Envelope): (items: seq<string>) {
    [NStringText(e, v.date), NStringText(e, e.encode(v.subject))]
    + [AddressListText(e, v.from),
       AddressListText(e, if v.sender.Some? then v.sender.value else v.from),
       AddressListText(e, if v.replyTo.Some? then v.replyTo.value else v.from),
       AddressListText(e, v.to), AddressListText(e, v.cc), AddressListText(e, v.bcc)]
    + [NStringText(e, v.inReplyTo), NStringText(e, v.messageID)]
  }

  lemma EnvelopeForm(e: Enc, v: Envelope)
    ensures EnvelopeText(e, v) == InParens(EnvelopeItems(e, v))
  {
    hide NStringText, AddressListText, FieldsText, ListsText, Join;
    var a := [NStringText(e, v.date), NStringText(e, e.encode(v.subject))];
    var b := [AddressListText(e, v.from),
              AddressListText(e, if v.sender.Some? then v.sender.value else v.from),
              AddressListText(e, if v.replyTo.Some? then v.replyTo.value else v.from),
              AddressListText(e, v.to), AddressListText(e, v.cc), AddressListText(e, v.bcc)];
    var c := [NStringText(e, v.inReplyTo), NStringText(e, v.messageID)];
    FieldsForm(e, [v.date, EncodedWord(e, v.subject)]);
    FieldsForm(e, [v.inReplyTo, v.messageID]);
    assert NStrings(e, [v.date, EncodedWord(e, v.subject)]) == a && NStrings(e, [v.inReplyTo, v.messageID]) == c;
    ListsForm(e, Lists(v), b, c);
    JoinParts(a, b + c);
    assert a + (b + c) == EnvelopeItems(e, v);
    EnvelopeGlue(Join(a, ' '), ListsText(e, Lists(v)), Join(c, ' '));
  }

  lemma EnvelopeGlue(a: string, b: string, c: string)
    ensures "(" + (a + (" " + (b + (c + ")")))) == "(" + (a + (" " + (b + c))) + ")"
  {
  }

  // ---------------------------------------------------------------- body structures

  lemma DspForm(e: Enc, v: Option<Disposition>)
    ensures DspText(e, v) == if v.None? then "NIL" else InParens([StringText(e, v.value.value), ParamsText(e, v.value.params)])
  {
    if v.Some? {
      var a, b := StringText(e, v.value.value), ParamsText(e, v.value.params);
      JoinCons(a, [b]);
      assert [a] + [b] == [a, b];
    }
    hide StringText, ParamsText;
  }

  /** Disposition, language and location. */
  ghost function TailItems(e: Enc, x: Ext): (items: seq<string>) {
    [DspText(e, x.disposition), ListText(e, x.language), NStringText(e, x.location)]
  }

  lemma TailForm(e: Enc, x: Ext)
    ensures TailText(e, x) == " " + Join(TailItems(e, x), ' ')
  {
    hide DspText, ListText, NStringText;
    var a, b, c := DspText(e, x.disposition), ListText(e, x.language), NStringText(e, x.location);
    JoinCons(b, [c]);
    JoinCons(a, [b, c]);
    assert [b] + [c] == [b, c] && [a] + [b, c] == [a, b, c];
  }

  /** The fields of a single part: the basic ones, those of a message or a text, and extension data. */
  ghost function SingleItems(e: Enc, b: Body, extended: bool): (items: seq<string>)
    requires b.Single?
  {
    [StringText(e, b.typ), StringText(e, b.subtype), ParamsText(e, b.params), NStringText(e, b.id),
     NStringText(e, b.description), NStringText(e, if b.encoding == "" then "7bit" else Lower(b.encoding)), Digits(b.size)]
    + (if b.message.Some? then
         [EnvelopeText(e, b.message.value.envelope), BodyText(e, b.message.value.body, extended), Digits(b.message.value.lines)]
       else if b.text.Some? then [Digits(b.text.value)]
       else [])
    + (if extended && b.ext.Some? then ["NIL"] + TailItems(e, b.ext.value) else [])
  }

  lemma BasicForm(e: Enc, b: Body)
    requires b.Single?
    ensures StringText(e, b.typ) + (" " + BasicText(e, b))
         == Join([StringText(e, b.typ), StringText(e, b.subtype), ParamsText(e, b.params), NStringText(e, b.id),
                  NStringText(e, b.description), NStringText(e, if b.encoding == "" then "7bit" else Lower(b.encoding)),
                  Digits(b.size)], ' ')
  {
    var l := [b.id, b.description, Encoding(b)];
    FieldsForm(e, l);
    hide StringText, ParamsText, NStringText, FieldsText, Digits, Join;
    JoinSeven(StringText(e, b.typ), StringText(e, b.subtype), ParamsText(e, b.params), NStrings(e, l), Digits(b.size));
  }

  lemma JoinSeven(t: string, u: string, p: string, f: seq<string>, n: string)
    requires |f| == 3
    ensures t + (" " + (u + (" " + (p + (" " + (Join(f, ' ') + (" " + n)))))))
         == Join([t, u, p, f[0], f[1], f[2], n], ' ')
  {
    hide Join;
    JoinOne(n);
    JoinParts(f, [n]);
    JoinCons(p, f + [n]);
    JoinCons(u, [p] + (f + [n]));
    JoinCons(t, [u] + ([p] + (f + [n])));
    assert [t] + ([u] + ([p] + (f + [n]))) == [t, u, p, f[0], f[1], f[2], n];
  }

  lemma JoinOne(x: string)
    ensures Join([x], ' ') == x
  {
  }

  lemma KindForm(e: Enc, b: Body, extended: bool)
    requires b.Single? && (b.message.Some? || b.text.Some?)
    ensures KindText(e, b, extended)
         == " " + Join(if b.message.Some? then
                         [EnvelopeText(e, b.message.value.envelope), BodyText(e, b.message.value.body, extended), Digits(b.message.value.lines)]
                       else [Digits(b.text.value)], ' ')
  {
    hide EnvelopeText, BodyText, Digits, Join;
    if b.message.Some? {
      var m := b.message.value;
      var x, y, z := EnvelopeText(e, m.envelope), BodyText(e, m.body, extended), Digits(m.lines);
      JoinOne(z);
      JoinCons(y, [z]);
      JoinCons(x, [y, z]);
      assert [y] + [z] == [y, z] && [x] + [y, z] == [x, y, z];
    } else {
      JoinOne(Digits(b.text.value));
    }
  }

  /** A single part is its fields in this order, in parentheses and with single spaces. */
  lemma SingleForm(e: Enc, b: Body, extended: bool)
    requires b.Single?
    ensures BodyText(e, b, extended) == InParens(SingleItems(e, b, extended))
  {
    BasicForm(e, b);
    if b.message.Some? || b.text.Some? { KindForm(e, b, extended); }
    if extended && b.ext.Some? { SingleExtForm(e, b); }
    SingleTextIs(e, b, extended);
    hide StringText, ParamsText, NStringText, Digits, Join, EnvelopeText, BodyText, BasicText, TailItems, SingleExtText;
    var x := [StringText(e, b.typ), StringText(e, b.subtype), ParamsText(e, b.params), NStringText(e, b.id),
              NStringText(e, b.description), NStringText(e, if b.encoding == "" then "7bit" else Lower(b.encoding)), Digits(b.size)];
    var y := if b.message.Some? then
               [EnvelopeText(e, b.message.value.envelope), BodyText(e, b.message.value.body, extended), Digits(b.message.value.lines)]
             else if b.text.Some? then [Digits(b.text.value)]
             else [];
    var z := if extended && b.ext.Some? then ["NIL"] + TailItems(e, b.ext.value) else [];
    hide KindText;
    ThreeParts(x, y, z);
  }

  /** The text of up to three groups of fields. */
  function Behind(items: seq<string>): (r: string) { if items == [] then "" else " " + Join(items, ' ') }

  lemma TwoParts(x: seq<string>, y: seq<string>)
    requires x != []
    ensures Join(x + y, ' ') == Join(x, ' ') + Behind(y)
  {
    hide Join;
    if y == [] { assert x + y == x; } else { JoinParts(x, y); }
  }

  lemma ThreeParts(x: seq<string>, y: seq<string>, z: seq<string>)
    requires x != []
    ensures Join(x + y + z, ' ') == Join(x, ' ') + (Behind(y) + Behind(z))
  {
    hide Join, Behind;
    TwoParts(x, y);
    TwoParts(x + y, z);
  }

  lemma SingleExtForm(e: Enc, b: Body)
    requires b.Single? && b.ext.Some?
    ensures SingleExtText(e, b) == " " + Join(["NIL"] + TailItems(e, b.ext.value), ' ')
  {
    hide Join, TailText, TailItems;
    TailForm(e, b.ext.value);
    TailItemsSome(e, b.ext.value);
    JoinCons("NIL", TailItems(e, b.ext.value));
  }

  lemma TailItemsSome(e: Enc, x: Ext)
    ensures TailItems(e, x) != []
  {
  }

  lemma SingleTextIs(e: Enc, b: Body, extended: bool)
    requires b.Single?
    ensures BodyText(e, b, extended)
         == "(" + ((StringText(e, b.typ) + (" " + BasicText(e, b)))
                   + (KindText(e, b, extended) + if extended && b.ext.Some? then SingleExtText(e, b) else "")) + ")"
  {
    hide StringText, BasicText, KindText, SingleExtText;
  }

  ghost function Concat(l: seq<string>): (r: string) { if l == [] then "" else l[0] + Concat(l[1..]) }

  ghost function BodyTexts(e: Enc, l: seq<Body>, extended: bool): (r: seq<string>)
    ensures |r| == |l| && forall i | 0 <= i < |l| :: r[i] == BodyText(e, l[i], extended)
  {
    seq(|l|, i requires 0 <= i < |l| => BodyText(e, l[i], extended))
  }

  lemma {:induction false} ChildrenForm(e: Enc, l: seq<Body>, extended: bool)
    ensures ChildrenText(e, l, extended) == Concat(BodyTexts(e, l, extended))
    decreases |l|
  {
    hide BodyText;
    if l != [] {
      ChildrenForm(e, l[1..], extended);
      assert BodyTexts(e, l, extended)[1..] == BodyTexts(e, l[1..], extended);
    }
  }

  /** A multipart is its parts with nothing in between, then its subtype and extension data. */
  lemma MultiForm(e: Enc, b: Body, extended: bool)
    requires b.Multi?
    ensures BodyText(e, b, extended)
         == "(" + Concat(BodyTexts(e, b.children, extended)) + " "
            + Join([StringText(e, b.subtype)]
                   + (if extended && b.multiExt.Some?
                      then [ParamsText(e, b.multiExt.value.params)] + TailItems(e, b.multiExt.value.ext) else []), ' ')
            + ")"
  {
    ChildrenForm(e, b.children, extended);
    MultiTextIs(e, b, extended);
    hide Join, StringText, ParamsText, TailText, TailItems, BodyText, ChildrenText, Concat, BodyTexts;
    var t := StringText(e, b.subtype);
    JoinOne(t);
    assert [t] + [] == [t];
    if extended && b.multiExt.Some? {
      var p, x := ParamsText(e, b.multiExt.value.params), b.multiExt.value.ext;
      TailForm(e, x);
      TailItemsSome(e, x);
      JoinCons(p, TailItems(e, x));
      JoinCons(t, [p] + TailItems(e, x));
    }
  }

  lemma MultiTextIs(e: Enc, b: Body, extended: bool)
    requires b.Multi?
    ensures var x := if extended && b.multiExt.Some?
                     then " " + (ParamsText(e, b.multiExt.value.params) + TailText(e, b.multiExt.value.ext)) else "";
            BodyText(e, b, extended) == "(" + ChildrenText(e, b.children, extended) + " " + (StringText(e, b.subtype) + x) + ")"
  {
    hide StringText, ParamsText, TailText, ChildrenText;
  }

  /** The order of keys: the first difference decides, and a prefix comes first. */
  lemma {:induction false} LeqForm(a: string, b: string, n: nat)
    requires n <= |a| && n <= |b| && a[..n] == b[..n]
    ensures n == |a| ==> Leq(a, b)
    ensures n < |a| && n < |b| && a[n] != b[n] ==> (Leq(a, b) <==> a[n] < b[n])
    ensures n < |a| && n == |b| ==> !Leq(a, b)
    decreases n
  {
    if n > 0 {
      assert a[0] == a[..n][0] == b[..n][0] == b[0];
      assert a[1..][..n - 1] == a[..n][1..] && b[1..][..n - 1] == b[..n][1..];
      LeqForm(a[1..], b[1..], n - 1);
    }
  }

  // ---------------------------------------------------------------- what the readers accept

  lemma DigitIsTen(c: char)
    ensures IsDigit(c) <==> c in TEN
    ensures IsDigit(c) ==> IndexOf(TEN, c) == (c - '0') as nat
  {
    if IsDigit(c) { DigitAt(c, (c - '0') as nat); }
  }

  lemma {:induction false} ValueIs(s: string)
    requires AllDigits(s)
    ensures Value(s) == Num10(0, s)
    decreases |s|
  {
    hide IndexOf, TEN;
    if s != [] {
      var front, c := s[..|s| - 1], s[|s| - 1];
      ValueIs(front);
      DigitIsTen(c);
      Num10Snoc(0, front, c);
      assert front + [c] == s;
    }
  }

  lemma {:induction false} LeadingDigit(n: nat, s: string)
    requires forall i | 0 <= i < |s| :: s[i] in TEN
    ensures Num10(n, s) >= n
    decreases |s|
  {
    hide IndexOf, TEN;
    if s != [] { LeadingDigit(n * 10 + IndexOf(TEN, s[0]), s[1..]); }
  }

  /** The numbers of a set are read exactly as they are written: in decimal without leading zeros, not zero
      and within 32 bits, or as the star, which is 0. */
  lemma NumberAccepts(v: string, n: uint32)
    ensures ParseNum(v) == Some(n) <==> IsNumber(v, n)
  {
    DecimalIs(v);
    hide IndexOf, TEN, Num10, Value, AllDigits;
    StarNoDigit();
    if v != [] && AllDigits(v) { PositiveIs(v); }
  }

  lemma StarNoDigit()
    ensures !AllDigits("*") && '*' !in TEN
  {
    assert "*"[0] == '*';
  }

  lemma DecimalIs(v: string)
    ensures AllDigits(v) <==> forall i | 0 <= i < |v| :: v[i] in TEN
    ensures AllDigits(v) ==> Value(v) == Num10(0, v)
  {
    hide IndexOf, TEN;
    forall i | 0 <= i < |v| ensures IsDigit(v[i]) <==> v[i] in TEN { DigitIsTen(v[i]); }
    if AllDigits(v) { ValueIs(v); }
  }

  lemma PositiveIs(v: string)
    requires v != [] && AllDigits(v)
    ensures v[0] != '0' ==> Num10(0, v) > 0
    ensures v == "0" ==> Num10(0, v) == 0
  {
    hide TEN, IndexOf, AllDigits, Num10;
    DecimalIs(v);
    if v == "0" { ZeroIs(); }
    if v[0] != '0' {
      DigitIsTen(v[0]);
      Num10First(v);
      assert forall i | 0 <= i < |v[1..]| :: v[1..][i] in TEN;
      LeadingDigit(IndexOf(TEN, v[0]), v[1..]);
    }
  }

  lemma ZeroIs()
    ensures Num10(0, "0") == 0
  {
    DigitAt('0', 0);
    hide TEN, IndexOf;
    assert "0"[1..] == [];
  }

  lemma Num10First(v: string)
    requires v != []
    ensures Num10(0, v) == Num10(IndexOf(TEN, v[0]), v[1..])
  {
    hide TEN, IndexOf;
  }

  /** Two numbers with a colon are read as the range between them in either order, the star last. */
  lemma RangeAccepts(a: string, x: uint32, b: string, y: uint32)
    requires IsNumber(a, x) && IsNumber(b, y)
    ensures ParseRange(a) == Some(Range(x, x))
    ensures ParseRange(a + ":" + b)
         == Some(if x == 0 then Range(y, 0) else if y == 0 || x <= y then Range(x, y) else Range(y, x))
  {
    NumberAccepts(a, x);
    NumberAccepts(b, y);
    NoColon(a, x);
    hide IsNumber, ParseNum;
    var v := a + ":" + b;
    assert v[..|a|] == a && v[|a| + 1..] == b;
    IndexUnique(v, ':', |a|);
    IndexEnd(a, ':');
  }

  lemma NoColon(a: string, x: uint32)
    requires IsNumber(a, x)
    ensures ':' !in a
  {
    assert ':' !in TEN && ':' != '*';
  }

  lemma {:induction false} IndexEnd(s: string, c: char)
    requires c !in s
    ensures IndexOf(s, c) == |s|
    decreases |s|
  {
    if s != [] { IndexEnd(s[1..], c); }
  }

  /** u, between quotes, stands for s: a backslash takes away the meaning of any byte behind it. */
  ghost predicate Unescapes(u: string, s: string)
    decreases |u|
  {
    if u == [] then s == []
    else if u[0] == '\\' then |u| >= 2 && s != [] && s[0] == u[1] && Unescapes(u[2..], s[1..])
    else u[0] != '"' && s != [] && s[0] == u[0] && Unescapes(u[1..], s[1..])
  }

  /** Without a size limit, a quoted string is read for what it stands for, however it is escaped. */
  lemma {:induction false} QuotedAccepts(c: Conf, d: Dec, u: string, s: string, suffix: string)
    requires c.maxSize == 0 && Unescapes(u, s) && d.rest == u + ['"'] + suffix
    ensures var r := QuotedBody(c, d); r.Yes? && r.value == s && r.d.rest == suffix
    decreases |u|
  {
    if u != [] {
      var k := if u[0] == '\\' then 2 else 1;
      assert d.rest[k..] == u[k..] + ['"'] + suffix && d.rest[1..][1..] == d.rest[2..];
      QuotedAccepts(c, Take(d, k), u[k..], s[1..], suffix);
      QuotedReadsMore(c, d, k, s);
    } else {
      assert d.rest == ['"'] + suffix && d.rest[1..] == suffix;
    }
  }

  lemma {:induction false} QuotedReadsMore(c: Conf, d: Dec, k: nat, s: string)
    requires c.maxSize == 0 && k <= |d.rest| && d.rest != [] && d.rest[0] != '"' && k == (if d.rest[0] == '\\' then 2 else 1)
    requires s != [] && s[0] == d.rest[k - 1] && QuotedBody(c, Take(d, k)).Yes? && QuotedBody(c, Take(d, k)).value == s[1..]
    ensures QuotedBody(c, d).Yes? && QuotedBody(c, d).value == s && QuotedBody(c, d).d == QuotedBody(c, Take(d, k)).d
  {
    assert k == 2 ==> Take(Take(d, 1), 1) == Take(d, 2) && Take(d, 1).rest[0] == d.rest[1];
    assert [s[0]] + s[1..] == s;
  }

  /** And nothing else is: what is read is what stands between the quotes. */
  lemma {:induction false} QuotedRefuses(c: Conf, d: Dec) returns (u: string)
    requires c.maxSize == 0 && QuotedBody(c, d).Yes?
    ensures Unescapes(u, QuotedBody(c, d).value) && d.rest == u + ['"'] + QuotedBody(c, d).d.rest
    decreases |d.rest|
  {
    if d.rest[0] == '"' {
      u := [];
      assert d.rest == ['"'] + d.rest[1..];
    } else {
      var k := if d.rest[0] == '\\' then 2 else 1;
      QuotedTail(c, d, k);
      var r, q := QuotedBody(c, d), QuotedBody(c, Take(d, k));
      var v := QuotedRefuses(c, Take(d, k));
      u := d.rest[..k] + v;
      hide QuotedBody;
      UnescapesMore(d.rest[..k], v, d.rest[k - 1], q.value);
      assert d.rest == d.rest[..k] + d.rest[k..];
    }
  }

  lemma UnescapesMore(head: string, v: string, ch: char, s: string)
    requires Unescapes(v, s) && head != [] && ch == head[|head| - 1] && head[0] != '"'
    requires |head| == if head[0] == '\\' then 2 else 1
    ensures Unescapes(head + v, [ch] + s)
  {
    assert (head + v)[|head|..] == v && ([ch] + s)[1..] == s;
  }

  lemma QuotedTail(c: Conf, d: Dec, k: nat)
    requires c.maxSize == 0 && QuotedBody(c, d).Yes? && d.rest[0] != '"' && k == if d.rest[0] == '\\' then 2 else 1
    ensures k <= |d.rest| && QuotedBody(c, Take(d, k)).Yes? && QuotedBody(c, d).d == QuotedBody(c, Take(d, k)).d
    ensures QuotedBody(c, d).value == [d.rest[k - 1]] + QuotedBody(c, Take(d, k)).value
  {
    if k == 2 {
      assert |d.rest| >= 2;
      assert Take(Take(d, 1), 1) == Take(d, 2);
    }
  }

  /** A line ends with CR LF or LF alone, with at most one space in front. */
  lemma LineEndForms(c: Conf, d: Dec)
    requires c.maxSize == 0
    ensures var r := CRLF(c, d);
            && (r.Yes? <==> exists e | e in ["\r\n", "\n", " \r\n", " \n"] :: e <= d.rest)
            && (forall e | e in ["\r\n", "\n", " \r\n", " \n"] && e <= d.rest :: r.d.rest == d.rest[|e|..])
  {
    LineEndOf(c, d);
    var a, b, x, y := "\r\n", "\n", " \r\n", " \n";
    hide CRLF;
    assert a in [a, b, x, y] && b in [a, b, x, y] && x in [a, b, x, y] && y in [a, b, x, y];
  }

  lemma LineEndOf(c: Conf, d: Dec)
    requires c.maxSize == 0
    ensures var r, t := CRLF(c, d), d.rest;
            && (r.Yes? <==> "\r\n" <= t || "\n" <= t || " \r\n" <= t || " \n" <= t)
            && ("\r\n" <= t ==> r.d.rest == t[2..]) && ("\n" <= t ==> r.d.rest == t[1..])
            && (" \r\n" <= t ==> r.d.rest == t[3..]) && (" \n" <= t ==> r.d.rest == t[2..])
  {
    if CRLF(c, d).Yes? {
      var t := d.rest;
      if t[0] == ' ' {
        if t[1] == '\r' { assert t[..3] == " \r\n"; } else { assert t[..2] == " \n"; }
      } else if t[0] == '\r' {
        assert t[..2] == "\r\n";
      } else {
        assert t[..1] == "\n";
      }
    }
  }
}
