/** The written forms of SEARCH.

    Key words, month names and dates are stated against literal
    texts, and so is what the key words mean to the server. */
module SearchForms {
  import opened Text
  import opened NumSet
  import opened NumSetText
  import opened Wire
  import opened Criteria
  import opened SearchKeys
  import opened SearchText
  import opened SearchRoundTrip
  import opened WireForms

  // ---------------------------------------------------------------- dates

  function MonthName(m: nat): (name: string) {
    if m == 1 then "Jan" else if m == 2 then "Feb" else if m == 3 then "Mar" else if m == 4 then "Apr"
    else if m == 5 then "May" else if m == 6 then "Jun" else if m == 7 then "Jul" else if m == 8 then "Aug"
    else if m == 9 then "Sep" else if m == 10 then "Oct" else if m == 11 then "Nov" else "Dec"
  }

  lemma MonthNames(m: nat)
    requires 1 <= m <= 12
    ensures MONTHS[m - 1] == MonthName(m)
  {
  }

  /** Four digits that make up the number. */
  ghost predicate IsYear(t: string, n: nat) {
    |t| == 4 && (forall i | 0 <= i < 4 :: t[i] in TEN)
    && ((IndexOf(TEN, t[0]) * 10 + IndexOf(TEN, t[1])) * 10 + IndexOf(TEN, t[2])) * 10 + IndexOf(TEN, t[3]) == n
  }

  lemma YearForm(n: nat)
    requires n <= 9999
    ensures IsYear(Pad4(n), n)
  {
    FourDigits(n);
    hide IsYear, Digit;
    YearDigits(n / 1000, n / 100 % 10, n / 10 % 10, n % 10);
  }

  lemma YearDigits(a: nat, b: nat, c: nat, d: nat)
    requires a < 10 && b < 10 && c < 10 && d < 10
    ensures IsYear([Digit(a), Digit(b), Digit(c), Digit(d)], ((a * 10 + b) * 10 + c) * 10 + d)
  {
    hide IndexOf, TEN;
    DigitAt(Digit(a), a);
    DigitAt(Digit(b), b);
    DigitAt(Digit(c), c);
    DigitAt(Digit(d), d);
  }

  /** A day is written as its number without leading zeros, the name of the month and four digits of the
      year, with dashes in between. */
  lemma DateForm(t: Date) returns (day: string, year: string)
    requires ValidDate(t) && t.year <= 9999
    ensures IsDecimal(day, t.day) && IsYear(year, t.year)
    ensures DateText(t) == day + "-" + MonthName(t.month) + "-" + year
  {
    hide IsDecimal, IsYear, Digits, Pad4, MonthName, DateText, ValidDate;
    day, year := Digits(t.day), Pad4(t.year);
    DigitsForm(t.day);
    YearForm(t.year);
    DateParts(t);
  }

  lemma DateParts(t: Date)
    requires ValidDate(t) && t.year <= 9999
    ensures DateText(t) == Digits(t.day) + "-" + MonthName(t.month) + "-" + Pad4(t.year)
  {
    MonthNames(t.month);
    hide Digits, Pad4, MonthName;
  }

  // ---------------------------------------------------------------- keys

  /** The text of every key, word by word. */
  lemma KeyForms(e: Enc, n: nat, s: string, t: Date, u: seq<Range>)
    ensures LeafText(e, DayKey(On, t)) == "ON " + StringText(e, DateText(t))
    ensures LeafText(e, DayKey(Since, t)) == "SINCE " + StringText(e, DateText(t))
    ensures LeafText(e, DayKey(Before, t)) == "BEFORE " + StringText(e, DateText(t))
    ensures LeafText(e, DayKey(SentOn, t)) == "SENTON " + StringText(e, DateText(t))
    ensures LeafText(e, DayKey(SentSince, t)) == "SENTSINCE " + StringText(e, DateText(t))
    ensures LeafText(e, DayKey(SentBefore, t)) == "SENTBEFORE " + StringText(e, DateText(t))
    ensures LeafText(e, BodyKey(s)) == "BODY " + StringText(e, s)
    ensures LeafText(e, TextKey(s)) == "TEXT " + StringText(e, s)
    ensures LeafText(e, LargerKey(n)) == "LARGER " + Digits(n)
    ensures LeafText(e, SmallerKey(n)) == "SMALLER " + Digits(n)
    ensures LeafText(e, UidKey(Uids(u))) == "UID " + SetText(u)
    ensures LeafText(e, UidKey(SavedResult)) == "UID $"
    ensures LeafText(e, SeqKey(u)) == SetText(u)
  {
    hide StringText, DateText, Digits, SetText;
  }

  /** Header fields: five have a key of their own, in any case. */
  lemma HeaderForms(e: Enc, f: Field)
    ensures Upper(f.key) in ["BCC", "CC", "FROM", "SUBJECT", "TO"] ==>
              LeafText(e, HeaderKey(f)) == Upper(f.key) + " " + StringText(e, f.value)
    ensures Upper(f.key) !in ["BCC", "CC", "FROM", "SUBJECT", "TO"] ==>
              LeafText(e, HeaderKey(f)) == "HEADER " + StringText(e, f.key) + " " + StringText(e, f.value)
  {
    hide StringText;
  }

  /** Flags: five have a key of their own, the others are keywords. */
  lemma FlagForms(e: Enc, f: string)
    ensures LeafText(e, FlagKey("\\Answered")) == "ANSWERED" && LeafText(e, UnflagKey("\\Answered")) == "UNANSWERED"
    ensures LeafText(e, FlagKey("\\Deleted")) == "DELETED" && LeafText(e, UnflagKey("\\Deleted")) == "UNDELETED"
    ensures LeafText(e, FlagKey("\\Draft")) == "DRAFT" && LeafText(e, UnflagKey("\\Draft")) == "UNDRAFT"
    ensures LeafText(e, FlagKey("\\Flagged")) == "FLAGGED" && LeafText(e, UnflagKey("\\Flagged")) == "UNFLAGGED"
    ensures LeafText(e, FlagKey("\\Seen")) == "SEEN" && LeafText(e, UnflagKey("\\Seen")) == "UNSEEN"
    ensures f !in ["\\Answered", "\\Deleted", "\\Draft", "\\Flagged", "\\Seen"] ==>
              LeafText(e, FlagKey(f)) == "KEYWORD " + f && LeafText(e, UnflagKey(f)) == "UNKEYWORD " + f
  {
    FlagWords();
    hide FlagSearchKey, SYSTEM_FLAGS;
  }

  lemma FlagWords()
    ensures FlagSearchKey("\\Answered") == "ANSWERED" && FlagSearchKey("\\Deleted") == "DELETED"
    ensures FlagSearchKey("\\Draft") == "DRAFT" && FlagSearchKey("\\Flagged") == "FLAGGED" && FlagSearchKey("\\Seen") == "SEEN"
    ensures forall f | f !in ["\\Answered", "\\Deleted", "\\Draft", "\\Flagged", "\\Seen"] :: FlagSearchKey(f) == ""
  {
    UpperWords();
    hide Upper;
  }

  lemma UpperWords()
    ensures Upper("Answered") == "ANSWERED" && Upper("Deleted") == "DELETED" && Upper("Draft") == "DRAFT"
    ensures Upper("Flagged") == "FLAGGED" && Upper("Seen") == "SEEN"
    ensures "\\Answered"[1..] == "Answered" && "\\Deleted"[1..] == "Deleted" && "\\Draft"[1..] == "Draft"
    ensures "\\Flagged"[1..] == "Flagged" && "\\Seen"[1..] == "Seen"
  {
  }

  lemma AllWord()
    ensures KeywordOf("ALL") == KAll && KeywordOf("$") == KSaved
  {
  }

  lemma NewWord()
    ensures KeywordOf("NEW") == KNew
  {
  }

  lemma OldWord()
    ensures KeywordOf("OLD") == KOld
  {
  }

  /** The six date words, in any case: the server adds the day that follows. */
  lemma DayWords(c: Conf, d: Dec, acc: Criteria, atom: string, key: DateKey)
    requires Upper(atom) == match key
      case On => "ON" case Since => "SINCE" case Before => "BEFORE"
      case SentOn => "SENTON" case SentSince => "SENTSINCE" case SentBefore => "SENTBEFORE"
    requires SP(c, d).Yes? && ReadDate(c, SP(c, d).d).Yes?
    ensures var t := ReadDate(c, SP(c, d).d);
            ReadKeyWithAtom(c, d, acc, atom) == Yes(And(acc, DayCriteria(key, t.value)), t.d)
  {
    hide ReadDate, And, SP, ReadKey, KeywordOf, Upper;
    DayKeywords(key);
  }

  /** The words without an argument. */
  lemma BareWords(c: Conf, d: Dec, acc: Criteria, atom: string)
    ensures Upper(atom) == "ALL" ==> ReadKeyWithAtom(c, d, acc, atom) == Yes(acc, d)
    ensures Upper(atom) == "NEW" ==>
              ReadKeyWithAtom(c, d, acc, atom) == Yes(acc.(flag := acc.flag + ["\\Recent"], notFlag := acc.notFlag + ["\\Seen"]), d)
    ensures Upper(atom) == "OLD" ==> ReadKeyWithAtom(c, d, acc, atom) == Yes(acc.(notFlag := acc.notFlag + ["\\Recent"]), d)
    ensures Upper(atom) == "$" ==> ReadKeyWithAtom(c, d, acc, atom) == Yes(acc.(uid := acc.uid + [SavedResult]), d)
  {
    hide Upper, ReadKey, ParseSet, KeywordOf;
    AllWord();
    NewWord();
    OldWord();
  }
}
