/** The LIST wildcard matcher of imapserver/list.go, against filling in the wildcards. */
module MatchList {

  predicate IsWild(c: char) { c == '*' || c == '%' }

  /** delim is empty or one byte, which is how an ASCII delimiter is written. */
  predicate DelimOk(delim: string) { |delim| <= 1 }

  predicate DelimFree(s: string, delim: string) {
    delim == "" || forall i | 0 <= i < |s| :: [s[i]] != delim
  }

  /** subs has one string per wildcard, and those for '%' hold no delimiter. */
  ghost predicate Fits(pattern: string, delim: string, subs: seq<string>) {
    if pattern == "" then subs == []
    else if !IsWild(pattern[0]) then Fits(pattern[1..], delim, subs)
    else
      && subs != []
      && (pattern[0] == '%' ==> DelimFree(subs[0], delim))
      && Fits(pattern[1..], delim, subs[1..])
  }

  /** The pattern with its wildcards replaced. */
  ghost function Fill(pattern: string, delim: string, subs: seq<string>): (name: string)
    requires Fits(pattern, delim, subs)
  {
    if pattern == "" then ""
    else if !IsWild(pattern[0]) then [pattern[0]] + Fill(pattern[1..], delim, subs)
    else subs[0] + Fill(pattern[1..], delim, subs[1..])
  }

  /** The wildcards can be replaced so as to give the name. */
  ghost predicate Matches(name: string, delim: string, pattern: string) {
    exists subs :: Fits(pattern, delim, subs) && Fill(pattern, delim, subs) == name
  }

  predicate WildFree(s: string) { forall i | 0 <= i < |s| :: !IsWild(s[i]) }

  /** strings.IndexAny(pattern, "*%"), or the length when there is none. */
  function FirstWild(pattern: string): (i: nat)
    ensures i <= |pattern| && WildFree(pattern[..i]) && (i < |pattern| ==> IsWild(pattern[i]))
  {
    if pattern == "" || IsWild(pattern[0]) then 0
    else
      var i := FirstWild(pattern[1..]);
      assert pattern[..1 + i] == [pattern[0]] + pattern[1..][..i];
      1 + i
  }

  // ---------------------------------------------------------------- the relation, piece by piece

  /** Literal text in front of a pattern must be in front of the name. */
  lemma {:induction false} MatchesChunk(name: string, delim: string, chunk: string, rest: string)
    requires WildFree(chunk)
    ensures Matches(name, delim, chunk + rest) <==> chunk <= name && Matches(name[|chunk|..], delim, rest)
    decreases |chunk|
  {
    if chunk == "" {
      assert chunk + rest == rest && name[0..] == name;
    } else {
      assert (chunk + rest)[1..] == chunk[1..] + rest;
      MatchesLiteral(name, delim, chunk + rest);
      if name != "" {
        MatchesChunk(name[1..], delim, chunk[1..], rest);
        if |chunk| <= |name| { assert name[1..][|chunk| - 1..] == name[|chunk|..]; }
        assert chunk == [chunk[0]] + chunk[1..] && name == [name[0]] + name[1..];
      }
    }
  }

  lemma MatchesLiteral(name: string, delim: string, pattern: string)
    requires pattern != "" && !IsWild(pattern[0])
    ensures Matches(name, delim, pattern) <==>
              name != "" && name[0] == pattern[0] && Matches(name[1..], delim, pattern[1..])
  {
    if Matches(name, delim, pattern) {
      var subs :| Fits(pattern, delim, subs) && Fill(pattern, delim, subs) == name;
      assert Fill(pattern[1..], delim, subs) == name[1..];
    }
    if name != "" && name[0] == pattern[0] && Matches(name[1..], delim, pattern[1..]) {
      var subs :| Fits(pattern[1..], delim, subs) && Fill(pattern[1..], delim, subs) == name[1..];
      assert Fits(pattern, delim, subs) && Fill(pattern, delim, subs) == [name[0]] + name[1..];
    }
  }

  lemma MatchesEnd(name: string, delim: string)
    ensures Matches(name, delim, "") <==> name == ""
  {
    assert Fits("", delim, []) && Fill("", delim, []) == "";
  }

  /** A wildcard takes the first j bytes, for some j. */
  ghost predicate TakesFirst(name: string, delim: string, wild: char, rest: string, j: nat) {
    j <= |name| && (wild == '%' ==> DelimFree(name[..j], delim)) && Matches(name[j..], delim, rest)
  }

  lemma MatchesWild(name: string, delim: string, wild: char, rest: string)
    requires IsWild(wild)
    ensures Matches(name, delim, [wild] + rest) <==> exists j: nat :: TakesFirst(name, delim, wild, rest, j)
  {
    var pattern := [wild] + rest;
    assert pattern[1..] == rest;
    if Matches(name, delim, pattern) {
      var subs :| Fits(pattern, delim, subs) && Fill(pattern, delim, subs) == name;
      var j := |subs[0]|;
      assert name == subs[0] + Fill(rest, delim, subs[1..]);
      assert name[..j] == subs[0] && name[j..] == Fill(rest, delim, subs[1..]);
      assert TakesFirst(name, delim, wild, rest, j);
    }
    if exists j: nat :: TakesFirst(name, delim, wild, rest, j) {
      var j: nat :| TakesFirst(name, delim, wild, rest, j);
      var subs :| Fits(rest, delim, subs) && Fill(rest, delim, subs) == name[j..];
      var all := [name[..j]] + subs;
      assert all[1..] == subs;
      assert Fits(pattern, delim, all) && Fill(pattern, delim, all) == name[..j] + name[j..];
    }
  }

  // ---------------------------------------------------------------- the matcher

  method MatchPattern(name0: string, delim: string, pattern: string) returns (b: bool)
    requires DelimOk(delim)
    ensures b <==> Matches(name0, delim, pattern)
    decreases |pattern|
  {
    var i := FirstWild(pattern);
    if i == |pattern| {
      MatchesChunk(name0, delim, pattern, "");
      assert pattern + "" == pattern;
      if pattern <= name0 { MatchesEnd(name0[|pattern|..], delim); }
      return name0 == pattern;
    }
    var chunk, wildcard, rest := pattern[..i], pattern[i], pattern[i + 1..];
    assert pattern == chunk + ([wildcard] + rest);
    MatchesChunk(name0, delim, chunk, [wildcard] + rest);
    if |chunk| > 0 && !(chunk <= name0) {
      return false;
    }
    var name := name0[|chunk|..];
    MatchesWild(name, delim, wildcard, rest);
    var j := 0;
    while j < |name|
      invariant 0 <= j <= |name|
      invariant wildcard == '%' ==> DelimFree(name[..j], delim)
      invariant forall k | 0 <= k < j :: !Matches(name[k..], delim, rest)
    {
      if wildcard == '%' && [name[j]] == delim {
        break;
      }
      var found := MatchPattern(name[j..], delim, rest);
      if found {
        assert TakesFirst(name, delim, wildcard, rest, j);
        return true;
      }
      j := j + 1;
    }
    b := MatchPattern(name[j..], delim, rest);
    if b {
      assert TakesFirst(name, delim, wildcard, rest, j);
    } else {
      forall k | j < k <= |name| ensures !DelimFree(name[..k], delim) {
        assert [name[..k][j]] == delim;
      }
    }
  }

  // ---------------------------------------------------------------- reference and pattern

  /** The reference as MatchList uses it: with a delimiter at its end. */
  function Completed(delim: string, reference: string): (r: string) {
    if reference != "" && delim != "" && !(|reference| >= |delim| && reference[|reference| - |delim|..] == delim)
    then reference + delim
    else reference
  }

  /** A pattern that starts with the delimiter stands alone; otherwise the completed
      reference must be in front of the name. */
  ghost predicate MatchesList(name: string, delim: string, reference: string, pattern: string) {
    if delim != "" && delim <= pattern then Matches(name, delim, pattern[|delim|..])
    else Completed(delim, reference) <= name && Matches(name[|Completed(delim, reference)|..], delim, pattern)
  }

  method MatchListEntry(name0: string, delim: string, reference0: string, pattern0: string) returns (b: bool)
    requires DelimOk(delim)
    ensures b <==> MatchesList(name0, delim, reference0, pattern0)
  {
    var name, reference, pattern := name0, reference0, pattern0;
    if delim != "" && delim <= pattern {
      reference := "";
      pattern := pattern[|delim|..];
    }
    if reference != "" {
      if delim != "" && !(|reference| >= |delim| && reference[|reference| - |delim|..] == delim) {
        reference := reference + delim;
      }
      if !(reference <= name) {
        return false;
      }
      name := name[|reference|..];
    }
    b := MatchPattern(name, delim, pattern);
  }

  /** MatchList is matching the joined pattern, as section 6.3.9 of RFC 9051 describes it, for
      every name exactly when the completed reference holds no wildcard. */
  lemma JoinedPattern(delim: string, reference: string, pattern: string)
    requires DelimOk(delim) && !(delim != "" && delim <= pattern)
    ensures (forall name :: MatchesList(name, delim, reference, pattern)
                            <==> Matches(name, delim, Completed(delim, reference) + pattern))
            <==> WildFree(Completed(delim, reference))
  {
    var prefix := Completed(delim, reference);
    if WildFree(prefix) {
      forall name ensures MatchesList(name, delim, reference, pattern) <==> Matches(name, delim, prefix + pattern) {
        MatchesChunk(name, delim, prefix, pattern);
      }
    } else {
      var i :| 0 <= i < |prefix| && IsWild(prefix[i]);
      var c := if delim == "0" then '1' else '0';
      var name := Plug(prefix + pattern, c);
      PlugMatches(prefix + pattern, delim, c);
      assert name[i] == c && prefix[i] != c;
      assert !MatchesList(name, delim, reference, pattern);
    }
  }

  /** The pattern with every wildcard replaced by the one byte c. */
  function Plug(pattern: string, c: char): (r: string)
    ensures |r| == |pattern|
    ensures forall i | 0 <= i < |r| :: r[i] == if IsWild(pattern[i]) then c else pattern[i]
  {
    if pattern == "" then "" else [if IsWild(pattern[0]) then c else pattern[0]] + Plug(pattern[1..], c)
  }

  lemma {:induction false} PlugMatches(pattern: string, delim: string, c: char)
    requires [c] != delim
    ensures Matches(Plug(pattern, c), delim, pattern)
    decreases |pattern|
  {
    hide Matches;
    if pattern == "" {
      MatchesEnd("", delim);
    } else {
      var name := Plug(pattern, c);
      PlugMatches(pattern[1..], delim, c);
      assert name[1..] == Plug(pattern[1..], c);
      hide Plug;
      if IsWild(pattern[0]) {
        OneForWild(name, delim, pattern);
      } else {
        MatchesLiteral(name, delim, pattern);
      }
    }
  }

  /** A wildcard may stand for one byte that is not the delimiter. */
  lemma OneForWild(name: string, delim: string, pattern: string)
    requires pattern != "" && IsWild(pattern[0]) && name != "" && [name[0]] != delim && Matches(name[1..], delim, pattern[1..])
    ensures Matches(name, delim, pattern)
  {
    hide Matches;
    assert pattern == [pattern[0]] + pattern[1..];
    MatchesWild(name, delim, pattern[0], pattern[1..]);
    assert TakesFirst(name, delim, pattern[0], pattern[1..], 1);
  }

  // ---------------------------------------------------------------- what determines the matcher

  ghost predicate SplitsAt(name: string, delim: string, p: string, q: string, j: nat) {
    j <= |name| && Matches(name[..j], delim, p) && Matches(name[j..], delim, q)
  }

  lemma SplitPlain(name: string, delim: string, p: string, q: string)
    requires p != "" && !IsWild(p[0]) && name != "" && name[0] == p[0]
    ensures (exists j: nat :: SplitsAt(name, delim, p, q, j)) <==> exists j: nat :: SplitsAt(name[1..], delim, p[1..], q, j)
  {
    hide Matches;
    forall j: nat | j < |name| ensures SplitsAt(name, delim, p, q, j + 1) <==> SplitsAt(name[1..], delim, p[1..], q, j) {
      MatchesLiteral(name[..j + 1], delim, p);
      assert name[..j + 1][1..] == name[1..][..j] && name[1..][j..] == name[j + 1..];
    }
    if exists j: nat :: SplitsAt(name, delim, p, q, j) {
      var j: nat :| SplitsAt(name, delim, p, q, j);
      MatchesLiteral(name[..j], delim, p);
      assert SplitsAt(name[1..], delim, p[1..], q, j - 1);
    }
    if exists j: nat :: SplitsAt(name[1..], delim, p[1..], q, j) {
      var j: nat :| SplitsAt(name[1..], delim, p[1..], q, j);
      assert SplitsAt(name, delim, p, q, j + 1);
    }
  }

  /** A pattern in two parts matches a name exactly when the name can be cut so that each part matches its own. */
  lemma {:induction false} MatchesConcat(name: string, delim: string, p: string, q: string)
    ensures Matches(name, delim, p + q) <==> exists j: nat :: SplitsAt(name, delim, p, q, j)
    decreases |p|
  {
    if p == "" {
      assert p + q == q && name[0..] == name && name[..0] == "";
      MatchesEnd("", delim);
      hide Matches;
      if Matches(name, delim, q) { assert SplitsAt(name, delim, p, q, 0); }
      if exists j: nat :: SplitsAt(name, delim, p, q, j) {
        var j: nat :| SplitsAt(name, delim, p, q, j);
        MatchesEnd(name[..j], delim);
      }
    } else {
      assert (p + q)[1..] == p[1..] + q && p + q == [p[0]] + (p[1..] + q) && p == [p[0]] + p[1..];
      if IsWild(p[0]) { ConcatWild(name, delim, p, q); } else { ConcatPlain(name, delim, p, q); }
    }
  }

  lemma {:induction false} ConcatPlain(name: string, delim: string, p: string, q: string)
    requires p != "" && !IsWild(p[0])
    ensures Matches(name, delim, p + q) <==> exists j: nat :: SplitsAt(name, delim, p, q, j)
    decreases |p|, 0
  {
    hide Matches;
    assert (p + q)[1..] == p[1..] + q;
    MatchesLiteral(name, delim, p + q);
    if name != "" && name[0] == p[0] {
      MatchesConcat(name[1..], delim, p[1..], q);
      SplitPlain(name, delim, p, q);
    } else {
      forall j: nat ensures !SplitsAt(name, delim, p, q, j) {
        if j <= |name| { MatchesLiteral(name[..j], delim, p); }
      }
    }
  }

  lemma {:induction false} ConcatWild(name: string, delim: string, p: string, q: string)
    requires p != "" && IsWild(p[0])
    ensures Matches(name, delim, p + q) <==> exists j: nat :: SplitsAt(name, delim, p, q, j)
    decreases |p|, 0
  {
    hide Matches, DelimFree;
    var wild, rest := p[0], p[1..];
    assert p + q == [wild] + (rest + q) && p == [wild] + rest;
    MatchesWild(name, delim, wild, rest + q);
    if Matches(name, delim, p + q) {
      var i: nat :| TakesFirst(name, delim, wild, rest + q, i);
      MatchesConcat(name[i..], delim, rest, q);
      var k: nat :| SplitsAt(name[i..], delim, rest, q, k);
      CutTwice(name, i, k);
      MatchesWild(name[..i + k], delim, wild, rest);
      assert TakesFirst(name[..i + k], delim, wild, rest, i);
      assert SplitsAt(name, delim, p, q, i + k);
    }
    if exists j: nat :: SplitsAt(name, delim, p, q, j) {
      var j: nat :| SplitsAt(name, delim, p, q, j);
      MatchesWild(name[..j], delim, wild, rest);
      var i: nat :| TakesFirst(name[..j], delim, wild, rest, i);
      CutTwice(name, i, j - i);
      assert SplitsAt(name[i..], delim, rest, q, j - i);
      MatchesConcat(name[i..], delim, rest, q);
      assert TakesFirst(name, delim, wild, rest + q, i);
    }
  }

  lemma CutTwice(name: string, i: nat, k: nat)
    requires i + k <= |name|
    ensures name[..i + k][..i] == name[..i] && name[..i + k][i..] == name[i..][..k] && name[i..][k..] == name[i + k..]
  {
  }

  /** The pieces of a pattern: text matches itself, "*" matches every name, and "%" every name without the
      delimiter. With MatchesConcat, this is all there is to a pattern. */
  lemma MatchesPieces(name: string, delim: string, text: string)
    ensures '*' !in text && '%' !in text ==> (Matches(name, delim, text) <==> name == text)
    ensures Matches(name, delim, "*")
    ensures Matches(name, delim, "%") <==> delim == "" || forall i | 0 <= i < |name| :: [name[i]] != delim
  {
    hide Matches;
    if '*' !in text && '%' !in text {
      assert text + "" == text;
      MatchesChunk(name, delim, text, "");
      if text <= name { MatchesEnd(name[|text|..], delim); }
    }
    WildAlone(name, delim, '*');
    WildAlone(name, delim, '%');
  }

  lemma WildAlone(name: string, delim: string, wild: char)
    requires IsWild(wild)
    ensures Matches(name, delim, [wild]) <==> (wild == '%' ==> DelimFree(name, delim))
  {
    hide Matches, DelimFree;
    assert [wild] == [wild] + "" && name[..|name|] == name && name[|name|..] == "";
    MatchesWild(name, delim, wild, "");
    MatchesEnd("", delim);
    if wild == '%' ==> DelimFree(name, delim) { assert TakesFirst(name, delim, wild, "", |name|); }
    if exists j: nat :: TakesFirst(name, delim, wild, "", j) {
      var j: nat :| TakesFirst(name, delim, wild, "", j);
      MatchesEnd(name[j..], delim);
      assert name[..j] == name;
    }
  }

  /** The four ways of MatchList to join reference and pattern. A pattern in front of which the delimiter
      stands is taken without it and without the reference. Otherwise a plain reference is put in front,
      with the delimiter in between unless it is there already or there is nothing to separate. */
  lemma EntryForms(name: string, delim: string, reference: string, pattern: string)
    requires WildFree(delim) && WildFree(reference)
    ensures delim != "" ==> (MatchesList(name, delim, reference, delim + pattern) <==> Matches(name, delim, pattern))
    ensures !(delim != "" && delim <= pattern) ==>
              (MatchesList(name, delim, reference, pattern) <==>
                 if reference == "" || delim == "" || (|delim| <= |reference| && reference[|reference| - |delim|..] == delim)
                 then Matches(name, delim, reference + pattern)
                 else Matches(name, delim, reference + delim + pattern))
  {
    hide Matches;
    assert (delim + pattern)[|delim|..] == pattern;
    MatchesChunk(name, delim, reference, pattern);
    MatchesChunk(name, delim, reference + delim, pattern);
  }
}
