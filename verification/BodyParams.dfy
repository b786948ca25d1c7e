/** Body parameters and language lists, as imapserver/fetch.go writes and imapclient/fetch.go reads them. */
module BodyParams {
  import opened Text
  import opened Wire

  // ---------------------------------------------------------------- sorted keys

  /** The byte order of sort.Strings. */
  predicate Leq(a: string, b: string) {
    a == [] || (b != [] && (a[0] < b[0] || (a[0] == b[0] && Leq(a[1..], b[1..]))))
  }

  lemma {:induction false} LeqOrder(a: string, b: string, c: string)
    ensures Leq(a, b) || Leq(b, a)
    ensures Leq(a, b) && Leq(b, a) ==> a == b
    ensures Leq(a, b) && Leq(b, c) ==> Leq(a, c)
    decreases |a|
  {
    if a != [] && b != [] {
      LeqOrder(a[1..], b[1..], if c == [] then [] else c[1..]);
      assert a == [a[0]] + a[1..] && b == [b[0]] + b[1..];
    }
  }

  ghost predicate IsLeast(k: string, ks: set<string>) { k in ks && forall j | j in ks :: Leq(k, j) }

  lemma LeastExists(ks: set<string>) returns (k: string)
    requires ks != {}
    ensures IsLeast(k, ks)
    decreases |ks|
  {
    var j :| j in ks;
    LeqOrder(j, j, j);
    k := j;
    var rest := ks - {j};
    assert forall m | m in ks :: m == j || m in rest;
    if rest != {} {
      var i := LeastExists(rest);
      k := if Leq(i, j) then i else j;
      forall m | m in ks ensures Leq(k, m) {
        LeqOrder(i, j, m);
        LeqOrder(j, i, m);
      }
    }
  }

  ghost predicate Sorted(l: seq<string>) {
    forall i, j | 0 <= i < j < |l| :: Leq(l[i], l[j]) && l[i] != l[j]
  }

  ghost function LeastOf(ks: set<string>): (k: string)
    requires ks != {}
    ensures IsLeast(k, ks)
  {
    assert exists k :: IsLeast(k, ks) by { var k := LeastExists(ks); }
    var k :| IsLeast(k, ks);
    k
  }

  /** The keys of a map in order. */
  ghost function SortedKeys(ks: set<string>): (l: seq<string>)
    ensures forall k :: k in l <==> k in ks
    ensures Sorted(l)
  {
    if ks == {} then []
    else
      var k := LeastOf(ks);
      var rest := SortedKeys(ks - {k});
      assert forall i | 0 <= i < |rest| :: rest[i] in rest;
      [k] + rest
  }

  lemma Members(a: seq<string>)
    requires a != []
    ensures forall k :: k in a <==> k == a[0] || k in a[1..]
  {
    assert a == [a[0]] + a[1..];
  }

  /** There is only one sorted list of a set. */
  lemma {:induction false} SortedUnique(a: seq<string>, b: seq<string>)
    requires Sorted(a) && Sorted(b) && forall k :: k in a <==> k in b
    ensures a == b
    decreases |a|
  {
    assert b != [] ==> b[0] in b;
    if a != [] {
      assert a[0] in b;
      assert b[0] in a;
      LeqOrder(a[0], b[0], a[0]);
      assert a[0] == b[0];
      var x, y := a[1..], b[1..];
      Members(a);
      Members(b);
      assert a[0] !in x && b[0] !in y;
      SortedUnique(x, y);
      assert a == [a[0]] + x && b == [b[0]] + y;
    }
  }

  // ---------------------------------------------------------------- lists of strings

  /** The strings of a list that is not empty, up to and including the closing parenthesis. */
  function ItemsText(e: Enc, l: seq<string>): (r: string)
    requires l != []
  {
    StringText(e, l[0]) + (if |l| == 1 then ")" else " " + ItemsText(e, l[1..]))
  }

  function ListText(e: Enc, l: seq<string>): (r: string) { if l == [] then "NIL" else "(" + ItemsText(e, l) }

  /** The loop of Decoder.List when every item must be a string. */
  function ReadItems(c: Conf, d: Dec): (r: Res<seq<string>>)
    ensures |r.d.rest| <= |d.rest| && r.d.depth == d.depth
    decreases |d.rest|
  {
    var s := String(c, d);
    if s.No? then No(s.d)
    else
      var close := Accept(c, s.d, ')');
      if close.Yes? then Yes([s.value], close.d)
      else
        var sp := SP(c, s.d);
        if sp.No? then No(sp.d)
        else
          var r := ReadItems(c, sp.d);
          if r.No? then r else Yes([s.value] + r.value, r.d)
  }

  /** Decoder.List after its opening parenthesis. */
  function ReadOpenList(c: Conf, d: Dec): (r: Res<seq<string>>)
    ensures |r.d.rest| <= |d.rest| && r.d.depth == d.depth
  {
    var close := Accept(c, d, ')');
    if close.Yes? then Yes([], close.d)
    else if d.depth + 1 >= MAX_LIST_DEPTH then No(d)
    else ReadItems(c, d)
  }

  /** Decoder.ExpectNList. */
  function ReadNList(c: Conf, d: Dec): (r: Res<seq<string>>)
    ensures |r.d.rest| <= |d.rest| && r.d.depth == d.depth
  {
    var a := Func(c, d, AtomChars);
    if a.Yes? then (if a.value == "NIL" then Yes([], a.d) else No(a.d))
    else
      var open := Accept(c, a.d, '(');
      if open.No? then No(open.d) else ReadOpenList(c, open.d)
  }

  /** readBodyFldLang: a list, one string, or NIL. */
  function ReadLang(c: Conf, d: Dec): (r: Res<seq<string>>)
    ensures |r.d.rest| <= |d.rest| && r.d.depth == d.depth
  {
    var open := Accept(c, d, '(');
    if open.Yes? then ReadOpenList(c, open.d)
    else
      var s := NString(c, open.d);
      if s.No? then No(s.d) else Yes(if s.value == "" then [] else [s.value], s.d)
  }

  // ---------------------------------------------------------------- parameters

  type Params = map<string, string>

  /** How readBodyFldParam pairs up the strings of a list: keys are lower-cased, values decoded, and an
      empty key is taken for no key. */
  function Pairs(c: Conf, l: seq<string>, key: string, acc: Params): (r: Option<Params>) {
    if l == [] then (if key == "" then Some(acc) else None)
    else if key == "" then Pairs(c, l[1..], l[0], acc)
    else Pairs(c, l[1..], "", acc[Lower(key) := DecodedWord(c, l[0])])
  }

  /** readBodyFldParam. */
  function ReadParams(c: Conf, d: Dec): (r: Res<Params>)
    ensures |r.d.rest| <= |d.rest| && r.d.depth == d.depth
  {
    var l := ReadNList(c, d);
    if l.No? then No(l.d)
    else
      match Pairs(c, l.value, "", map[])
      case None => No(l.d)
      case Some(p) => Yes(p, l.d)
  }

  /** Keys and values, one after the other. */
  function Flat(keys: seq<string>, p: Params): (l: seq<string>)
    requires forall k | k in keys :: k in p
  {
    if keys == [] then [] else [keys[0], p[keys[0]]] + Flat(keys[1..], p)
  }

  /** writeBodyFldParam. */
  ghost function ParamsText(e: Enc, p: Params): (r: string) { ListText(e, Flat(SortedKeys(p.Keys), p)) }

  /** Parameters as the client gets them. */
  function Decoded(c: Conf, p: Params): (r: Params) { map k | k in p :: DecodedWord(c, p[k]) }

  /** Keys as the server holds them. */
  predicate KeysOk(p: Params) { forall k | k in p :: k != "" && Lower(k) == k }

  lemma {:induction false} PairsFlat(c: Conf, keys: seq<string>, p: Params, acc: Params)
    requires (forall k | k in keys :: k in p) && KeysOk(p)
    ensures var r := Pairs(c, Flat(keys, p), "", acc);
            && r.Some? && r.value.Keys == acc.Keys + (set k | k in keys)
            && forall k | k in r.value :: r.value[k] == if k in keys then DecodedWord(c, p[k]) else acc[k]
    decreases |keys|
  {
    hide DecodedWord;
    if keys != [] {
      var k := keys[0];
      var l, more := Flat(keys, p), acc[k := DecodedWord(c, p[k])];
      assert k in keys && l[0] == k && l[1] == p[k] && l[1..][1..] == Flat(keys[1..], p);
      Members(keys);
      PairsFlat(c, keys[1..], p, more);
      assert Pairs(c, l, "", acc) == Pairs(c, l[1..], k, acc);
      assert l[1..][0] == p[k];
      assert Pairs(c, l[1..], k, acc) == Pairs(c, Flat(keys[1..], p), "", more);
    }
  }

  // ---------------------------------------------------------------- reading back

  lemma {:induction false} ItemsRead(c: Conf, e: Enc, d: Dec, l: seq<string>, suffix: string)
    requires Opposite(c, e) && l != [] && forall i | 0 <= i < |l| :: Sendable(c, l[i])
    requires At(c, d, ItemsText(e, l), suffix)
    ensures ReadsAs(ReadItems(c, d), l, d, ItemsText(e, l), suffix)
    decreases |l|
  {
    hide StringText, String, AString;
    var a := StringText(e, l[0]);
    if |l| == 1 {
      assert l == [l[0]];
      AtSplit(c, d, a, ")", suffix);
      StringReads(c, e, d, l[0], ")" + suffix);
      AcceptReads(c, String(c, d).d, ')', suffix);
    } else {
      var rest := ItemsText(e, l[1..]);
      StringTextStart(e, l[1]);
      AtSplit(c, d, a, " " + rest, suffix);
      StringReads(c, e, d, l[0], " " + rest + suffix);
      var d1 := String(c, d).d;
      AtSplit(c, d1, " ", rest, suffix);
      SpaceReads(c, d1, rest + suffix);
      var d2 := SP(c, d1).d;
      ItemsRead(c, e, d2, l[1..], suffix);
      assert [l[0]] + l[1..] == l;
    }
  }

  /** What may follow a field: a space, another list or the end of the list. */
  predicate Closes(suffix: string) { suffix != [] && (suffix[0] == ' ' || suffix[0] == '(' || suffix[0] == ')') }

  lemma NilReads(c: Conf, d: Dec, suffix: string)
    requires At(c, d, "NIL", suffix) && Closes(suffix)
    ensures ReadsAs(Func(c, d, AtomChars), "NIL", d, "NIL", suffix)
  {
    assert forall i | 0 <= i < 3 :: IsAtomChar("NIL"[i]);
    FuncReads(c, d, AtomChars, "NIL", suffix);
  }

  /** No atom starts at a parenthesis, a quote or a brace. */
  lemma NoAtom(c: Conf, d: Dec)
    requires d.rest != [] && !IsAtomChar(d.rest[0])
    ensures Func(c, d, AtomChars) == No(d)
  {
    assert Span(c, d, AtomChars) == 0;
    assert Take(d, 0) == d;
  }

  lemma OpenListReads(c: Conf, e: Enc, d: Dec, l: seq<string>, suffix: string)
    requires Opposite(c, e) && l != [] && (forall i | 0 <= i < |l| :: Sendable(c, l[i])) && d.depth + 1 < MAX_LIST_DEPTH
    requires At(c, d, "(" + ItemsText(e, l), suffix)
    ensures var open := Accept(c, d, '(');
            open.Yes? && ReadsAs(ReadOpenList(c, open.d), l, d, "(" + ItemsText(e, l), suffix)
  {
    hide StringText, ReadItems;
    AtSplit(c, d, "(", ItemsText(e, l), suffix);
    AcceptReads(c, d, '(', ItemsText(e, l) + suffix);
    var d1 := Accept(c, d, '(').d;
    StringTextStart(e, l[0]);
    assert d1.rest[0] == StringText(e, l[0])[0];
    ItemsRead(c, e, d1, l, suffix);
  }

  lemma ListReads(c: Conf, e: Enc, d: Dec, l: seq<string>, suffix: string)
    requires Opposite(c, e) && (forall i | 0 <= i < |l| :: Sendable(c, l[i])) && d.depth + 1 < MAX_LIST_DEPTH
    requires At(c, d, ListText(e, l), suffix) && Closes(suffix)
    ensures ReadsAs(ReadNList(c, d), l, d, ListText(e, l), suffix)
    ensures ReadsAs(ReadLang(c, d), l, d, ListText(e, l), suffix)
  {
    hide ItemsText, ReadOpenList;
    if l == [] {
      NilReads(c, d, suffix);
      assert Accept(c, d, '(').No?;
    } else {
      NoAtom(c, d);
      OpenListReads(c, e, d, l, suffix);
    }
  }

  lemma ListTextStart(e: Enc, l: seq<string>)
    ensures ListText(e, l) != [] && (ListText(e, l)[0] == 'N' || ListText(e, l)[0] == '(')
  {
  }

  predicate ParamsOk(c: Conf, p: Params) { KeysOk(p) && forall k | k in p :: Sendable(c, k) && Sendable(c, p[k]) }

  lemma {:induction false} FlatSendable(c: Conf, keys: seq<string>, p: Params)
    requires (forall k | k in keys :: k in p) && ParamsOk(c, p)
    ensures forall i | 0 <= i < |Flat(keys, p)| :: Sendable(c, Flat(keys, p)[i])
    decreases |keys|
  {
    if keys != [] {
      assert keys[0] in keys;
      Members(keys);
      FlatSendable(c, keys[1..], p);
    }
  }

  /** Parameters come back with their values decoded, whatever their number. */
  lemma ParamsReads(c: Conf, e: Enc, d: Dec, p: Params, suffix: string)
    requires Opposite(c, e) && ParamsOk(c, p) && d.depth + 1 < MAX_LIST_DEPTH
    requires At(c, d, ParamsText(e, p), suffix) && Closes(suffix)
    ensures ReadsAs(ReadParams(c, d), Decoded(c, p), d, ParamsText(e, p), suffix)
  {
    var l := Flat(SortedKeys(p.Keys), p);
    FlatSendable(c, SortedKeys(p.Keys), p);
    PairsSorted(c, p);
    hide ListText, ReadNList, Pairs, Flat, SortedKeys, Decoded;
    ListReads(c, e, d, l, suffix);
  }

  lemma PairsSorted(c: Conf, p: Params)
    requires KeysOk(p)
    ensures Pairs(c, Flat(SortedKeys(p.Keys), p), "", map[]) == Some(Decoded(c, p))
  {
    hide Pairs, Flat, DecodedWord;
    var keys := SortedKeys(p.Keys);
    PairsFlat(c, keys, p, map[]);
    var r := Pairs(c, Flat(keys, p), "", map[]).value;
    assert (set k | k in keys) == p.Keys;
    hide SortedKeys;
    assert r.Keys == p.Keys;
    assert r == Decoded(c, p);
  }

  lemma {:induction false} PairsKeys(c: Conf, l: seq<string>, key: string, acc: Params)
    requires KeysOk(acc)
    ensures var r := Pairs(c, l, key, acc); r.Some? ==> KeysOk(r.value)
    decreases |l|
  {
    hide DecodedWord;
    if l != [] {
      if key == "" {
        PairsKeys(c, l[1..], l[0], acc);
      } else {
        assert Lower(Lower(key)) == Lower(key);
        PairsKeys(c, l[1..], "", acc[Lower(key) := DecodedWord(c, l[0])]);
      }
    }
  }

  /** The exact condition under which the very map comes back, for any decoder of words: no key is empty
      or has an upper-case letter, and no value holds anything that the decoder changes. */
  lemma PairsExactly(c: Conf, p: Params)
    ensures Pairs(c, Flat(SortedKeys(p.Keys), p), "", map[]) == Some(p)
            <==> KeysOk(p) && forall k | k in p :: DecodedWord(c, p[k]) == p[k]
  {
    hide Pairs, Decoded, DecodedWord, KeysOk;
    var l := Flat(SortedKeys(p.Keys), p);
    NoKeysOk();
    PairsKeys(c, l, "", map[]);
    if KeysOk(p) { PairsSorted(c, p); }
    hide Flat, SortedKeys;
    DecodedSame(c, p);
  }

  lemma NoKeysOk()
    ensures KeysOk(map[])
  {
  }

  lemma DecodedSame(c: Conf, p: Params)
    ensures Decoded(c, p) == p <==> forall k | k in p :: DecodedWord(c, p[k]) == p[k]
  {
    hide DecodedWord;
    if Decoded(c, p) == p { assert forall k | k in p :: Decoded(c, p)[k] == p[k]; }
  }
}
