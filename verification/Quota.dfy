/** The quota checks of User.Append (imapserver/imapmemserver/user.go), over whole runs. */
module Quota {

  const HOUR: int := 3600_000_000_000 // time.Hour in nanoseconds

  /** Zero means no limit. */
  datatype Quota = Quota(maxMessages: nat, maxStorageBytes: nat, maxMessagesPerHour: nat)

  /** One user: the times of his appends and the sizes of the messages in each mailbox. */
  datatype State = State(stamps: seq<int>, mailboxes: map<string, seq<nat>>)

  datatype Outcome = Appended | NoSuchMailbox | HourQuota | MessageQuota | StorageQuota

  function Sum(sizes: seq<nat>): (n: nat) {
    if sizes == [] then 0 else Sum(sizes[..|sizes| - 1]) + sizes[|sizes| - 1]
  }

  /** How many of the stamps lie after the time a. */
  function CountAfter(stamps: seq<int>, a: int): (n: nat) {
    if stamps == [] then 0
    else CountAfter(stamps[..|stamps| - 1], a) + if stamps[|stamps| - 1] > a then 1 else 0
  }

  /** How many of the stamps lie in (a, a + 1h]. */
  ghost function InWindow(stamps: seq<int>, a: int): (n: nat) {
    if stamps == [] then 0
    else InWindow(stamps[..|stamps| - 1], a) + if a < stamps[|stamps| - 1] <= a + HOUR then 1 else 0
  }

  /** The decision of Append at time now; recent is counted in 32 bits. */
  function Decide(q: Quota, st: State, name: string, size: nat, now: int): (o: Outcome) {
    if name !in st.mailboxes then NoSuchMailbox
    else if q.maxMessagesPerHour > 0 && CountAfter(st.stamps, now - HOUR) % 0x1_0000_0000 >= q.maxMessagesPerHour
    then HourQuota
    else if q.maxMessages > 0 && |st.mailboxes[name]| % 0x1_0000_0000 >= q.maxMessages then MessageQuota
    else if q.maxStorageBytes > 0 && Sum(st.mailboxes[name]) + size > q.maxStorageBytes then StorageQuota
    else Appended
  }

  /** Append: checked at time now, recorded at time stamp. */
  function Append(q: Quota, st: State, name: string, size: nat, now: int, stamp: int): (r: State) {
    if Decide(q, st, name, size, now) != Appended then st
    else State(st.stamps + [stamp], st.mailboxes[name := st.mailboxes[name] + [size]])
  }

  // ---------------------------------------------------------------- the user object

  class User {
    var stamps: seq<int>
    var mailboxes: map<string, seq<nat>>
    const quota: Quota

    ghost function Abs(): (st: State)
      reads this
    {
      State(stamps, mailboxes)
    }

    constructor (quota: Quota, mailboxes: map<string, seq<nat>>)
      ensures this.quota == quota && Abs() == State([], mailboxes)
    {
      this.quota, this.mailboxes, stamps := quota, mailboxes, [];
    }

    /** The clock is read twice: for the check and for the record. */
    method AppendMessage(name: string, size: nat, now: int, stamp: int) returns (o: Outcome)
      modifies this
      ensures o == Decide(quota, old(Abs()), name, size, now)
      ensures Abs() == Append(quota, old(Abs()), name, size, now, stamp)
    {
      if name !in mailboxes {
        return NoSuchMailbox;
      }
      var oneHourAgo := now - HOUR;
      var recent := 0;
      for i := 0 to |stamps|
        invariant recent == CountAfter(stamps[..i], oneHourAgo)
      {
        assert stamps[..i + 1][..i] == stamps[..i];
        if stamps[i] > oneHourAgo {
          recent := recent + 1;
        }
      }
      assert stamps[..|stamps|] == stamps;
      if quota.maxMessagesPerHour > 0 && recent % 0x1_0000_0000 >= quota.maxMessagesPerHour {
        return HourQuota;
      }
      var currentCount := |mailboxes[name]| % 0x1_0000_0000;
      var currentSize := SizeLocked(mailboxes[name]);
      if quota.maxMessages > 0 && currentCount >= quota.maxMessages {
        return MessageQuota;
      }
      if quota.maxStorageBytes > 0 && currentSize + size > quota.maxStorageBytes {
        return StorageQuota;
      }
      mailboxes := mailboxes[name := mailboxes[name] + [size]];
      stamps := stamps + [stamp];
      return Appended;
    }
  }

  method SizeLocked(sizes: seq<nat>) returns (size: nat)
    ensures size == Sum(sizes)
  {
    size := 0;
    for i := 0 to |sizes|
      invariant size == Sum(sizes[..i])
    {
      assert sizes[..i + 1][..i] == sizes[..i];
      size := size + sizes[i];
    }
    assert sizes[..|sizes|] == sizes;
  }

  // ---------------------------------------------------------------- runs

  /** One call of Append: it reads the clock at now and again at stamp. */
  datatype Call = Call(name: string, size: nat, now: int, stamp: int)

  /** A clock that never runs backwards, and calls that do not overlap. */
  ghost predicate Monotone(calls: seq<Call>) {
    && (forall i | 0 <= i < |calls| :: calls[i].now <= calls[i].stamp)
    && (forall i, j | 0 <= i < j < |calls| :: calls[i].stamp <= calls[j].now)
  }

  function Run(q: Quota, st: State, calls: seq<Call>): (r: State)
    decreases |calls|
  {
    if calls == [] then st
    else
      var c := calls[|calls| - 1];
      Append(q, Run(q, st, calls[..|calls| - 1]), c.name, c.size, c.now, c.stamp)
  }

  ghost predicate QuotaOk(q: Quota) {
    q.maxMessages < 0x1_0000_0000 && q.maxMessagesPerHour < 0x1_0000_0000
  }

  /** A window that ends after the last stamp holds all stamps after its start. */
  lemma {:induction false} WindowIsRecent(stamps: seq<int>, a: int)
    requires forall i | 0 <= i < |stamps| :: stamps[i] <= a + HOUR
    ensures InWindow(stamps, a) == CountAfter(stamps, a)
    decreases |stamps|
  {
    if stamps != [] { WindowIsRecent(stamps[..|stamps| - 1], a); }
  }

  lemma {:induction false} WindowAtMostRecent(stamps: seq<int>, a: int)
    ensures InWindow(stamps, a) <= CountAfter(stamps, a)
    decreases |stamps|
  {
    if stamps != [] { WindowAtMostRecent(stamps[..|stamps| - 1], a); }
  }

  lemma {:induction false} CountAntitone(stamps: seq<int>, a: int, b: int)
    requires a <= b
    ensures CountAfter(stamps, b) <= CountAfter(stamps, a)
    decreases |stamps|
  {
    if stamps != [] { CountAntitone(stamps[..|stamps| - 1], a, b); }
  }

  lemma {:induction false} StampsBelow(q: Quota, st: State, calls: seq<Call>, limit: int)
    requires Monotone(calls) && st.stamps == []
    requires forall i | 0 <= i < |calls| :: calls[i].stamp <= limit
    ensures forall t | t in Run(q, st, calls).stamps :: t <= limit
    decreases |calls|
  {
    if calls != [] { StampsBelow(q, st, calls[..|calls| - 1], limit); }
  }

  /** In every run with a monotone clock and a fixed quota, no window of one hour holds more
      recorded appends than the quota allows. */
  lemma {:induction false} HourlyBound(q: Quota, st: State, calls: seq<Call>, a: int)
    requires QuotaOk(q) && q.maxMessagesPerHour > 0 && Monotone(calls) && st.stamps == []
    ensures InWindow(Run(q, st, calls).stamps, a) <= q.maxMessagesPerHour
    decreases |calls|
  {
    if calls != [] {
      var front, c := calls[..|calls| - 1], calls[|calls| - 1];
      var before := Run(q, st, front);
      HourlyBound(q, st, front, a);
      if Decide(q, before, c.name, c.size, c.now) == Appended && a < c.stamp <= a + HOUR {
        HourlyBound(q, st, front, c.now - HOUR);
        assert calls == front + [c];
        RecentBelowQuota(q, st, front, c);
        CountAntitone(before.stamps, c.now - HOUR, a);
        WindowAtMostRecent(before.stamps, a);
        assert (before.stamps + [c.stamp])[..|before.stamps|] == before.stamps;
      } else if Decide(q, before, c.name, c.size, c.now) == Appended {
        assert (before.stamps + [c.stamp])[..|before.stamps|] == before.stamps;
      }
    }
  }

  /** The 32-bit count of recent appends never wraps, so a passed check means what it says. */
  lemma RecentBelowQuota(q: Quota, st: State, front: seq<Call>, c: Call)
    requires QuotaOk(q) && q.maxMessagesPerHour > 0 && Monotone(front + [c]) && st.stamps == []
    requires InWindow(Run(q, st, front).stamps, c.now - HOUR) <= q.maxMessagesPerHour
    requires Decide(q, Run(q, st, front), c.name, c.size, c.now) == Appended
    ensures CountAfter(Run(q, st, front).stamps, c.now - HOUR) < q.maxMessagesPerHour
  {
    hide Run;
    MonotoneFront(front, c);
    var now := Run(q, st, front);
    StampsBelow(q, st, front, c.now);
    assert forall i | 0 <= i < |now.stamps| :: now.stamps[i] in now.stamps;
    WindowIsRecent(now.stamps, c.now - HOUR);
  }

  lemma MonotoneFront(front: seq<Call>, c: Call)
    requires Monotone(front + [c])
    ensures Monotone(front) && forall i | 0 <= i < |front| :: front[i].stamp <= c.now
  {
    var calls := front + [c];
    assert calls[|front|] == c && forall i | 0 <= i < |front| :: calls[i] == front[i];
  }

  ghost predicate WithinQuota(q: Quota, sizes: seq<nat>) {
    && (q.maxMessages > 0 ==> |sizes| <= q.maxMessages)
    && (q.maxStorageBytes > 0 ==> Sum(sizes) <= q.maxStorageBytes)
  }

  /** Mailboxes that start within quota and are filled only by Append stay within it. */
  lemma {:induction false} MailboxBound(q: Quota, st: State, calls: seq<Call>, name: string)
    requires QuotaOk(q) && name in st.mailboxes && WithinQuota(q, st.mailboxes[name])
    ensures name in Run(q, st, calls).mailboxes && WithinQuota(q, Run(q, st, calls).mailboxes[name])
    decreases |calls|
  {
    if calls != [] {
      var front, c := calls[..|calls| - 1], calls[|calls| - 1];
      MailboxBound(q, st, front, name);
      var sizes := Run(q, st, front).mailboxes[name];
      assert (sizes + [c.size])[..|sizes|] == sizes;
    }
  }

  // ---------------------------------------------------------------- which calls are accepted

  /** What every call of a run was answered. */
  ghost function Outcomes(q: Quota, st: State, calls: seq<Call>): (os: seq<Outcome>)
    ensures |os| == |calls|
    ensures forall i | 0 <= i < |calls| :: os[i] == Decide(q, Run(q, st, calls[..i]), calls[i].name, calls[i].size, calls[i].now)
  {
    seq(|calls|, i requires 0 <= i < |calls| => Decide(q, Run(q, st, calls[..i]), calls[i].name, calls[i].size, calls[i].now))
  }

  /** Which of the first i calls were accepted and recorded after the time a. */
  ghost function AcceptedAfter(calls: seq<Call>, os: seq<Outcome>, i: nat, a: int): (js: set<nat>)
    requires i <= |calls| == |os|
  {
    set j: nat | j < i && os[j].Appended? && calls[j].stamp > a
  }

  /** The sizes that the accepted ones among the first i calls put into a mailbox. */
  ghost function PutInto(calls: seq<Call>, os: seq<Outcome>, i: nat, name: string): (sizes: seq<nat>)
    requires i <= |calls| == |os|
  {
    if i == 0 then []
    else PutInto(calls, os, i - 1, name) + if os[i - 1].Appended? && calls[i - 1].name == name then [calls[i - 1].size] else []
  }

  lemma RunStep(q: Quota, st: State, calls: seq<Call>, i: nat)
    requires 0 < i <= |calls|
    ensures var before, c := Run(q, st, calls[..i - 1]), calls[i - 1];
            && Run(q, st, calls[..i]) == Append(q, before, c.name, c.size, c.now, c.stamp)
            && Outcomes(q, st, calls)[i - 1] == Decide(q, before, c.name, c.size, c.now)
  {
    assert calls[..i][..i - 1] == calls[..i - 1];
  }

  lemma RunNone(q: Quota, st: State, calls: seq<Call>)
    ensures Run(q, st, calls[..0]) == st
  {
  }

  lemma CountStart(a: int)
    ensures CountAfter([], a) == 0
  {
  }

  lemma CountSnoc(stamps: seq<int>, t: int, a: int)
    ensures CountAfter(stamps + [t], a) == CountAfter(stamps, a) + if t > a then 1 else 0
  {
    assert (stamps + [t])[..|stamps|] == stamps;
  }

  lemma AcceptedNone(calls: seq<Call>, os: seq<Outcome>, a: int)
    requires |calls| == |os|
    ensures AcceptedAfter(calls, os, 0, a) == {}
  {
  }

  lemma AcceptedStep(calls: seq<Call>, os: seq<Outcome>, i: nat, a: int)
    requires 0 < i <= |calls| == |os|
    ensures |AcceptedAfter(calls, os, i, a)|
            == |AcceptedAfter(calls, os, i - 1, a)| + if os[i - 1].Appended? && calls[i - 1].stamp > a then 1 else 0
  {
    var js := AcceptedAfter(calls, os, i - 1, a);
    assert AcceptedAfter(calls, os, i, a) == js + if os[i - 1].Appended? && calls[i - 1].stamp > a then {i - 1} else {};
  }

  lemma {:induction false} RecordedStamps(q: Quota, st: State, calls: seq<Call>, i: nat, a: int)
    requires st.stamps == [] && i <= |calls|
    ensures CountAfter(Run(q, st, calls[..i]).stamps, a) == |AcceptedAfter(calls, Outcomes(q, st, calls), i, a)|
    decreases i
  {
    hide Run, Outcomes, Decide, CountAfter, AcceptedAfter;
    var os := Outcomes(q, st, calls);
    CountStart(a);
    if i == 0 {
      RunNone(q, st, calls);
      AcceptedNone(calls, os, a);
    } else {
      RecordedStamps(q, st, calls, i - 1, a);
      RunStep(q, st, calls, i);
      CountSnoc(Run(q, st, calls[..i - 1]).stamps, calls[i - 1].stamp, a);
      AcceptedStep(calls, os, i, a);
    }
  }

  lemma {:induction false} HeldSizes(q: Quota, st: State, calls: seq<Call>, i: nat, name: string)
    requires i <= |calls|
    ensures var r := Run(q, st, calls[..i]);
            && (name in r.mailboxes <==> name in st.mailboxes)
            && (name in st.mailboxes ==> r.mailboxes[name] == st.mailboxes[name] + PutInto(calls, Outcomes(q, st, calls), i, name))
    decreases i
  {
    if i > 0 {
      HeldSizes(q, st, calls, i - 1, name);
      RunStep(q, st, calls, i);
      hide Run, Outcomes, Decide;
      var sizes := PutInto(calls, Outcomes(q, st, calls), i - 1, name);
      assert sizes + [] == sizes;
    }
  }

  lemma {:induction false} CountFits(q: Quota, st: State, calls: seq<Call>, name: string)
    requires QuotaOk(q) && q.maxMessages > 0 && name in st.mailboxes && |st.mailboxes[name]| < 0x1_0000_0000
    ensures name in Run(q, st, calls).mailboxes && |Run(q, st, calls).mailboxes[name]| < 0x1_0000_0000
    decreases |calls|
  {
    if calls != [] { CountFits(q, st, calls[..|calls| - 1], name); }
  }

  /** The count of recent appends is that of the accepted calls in the last hour, and fits 32 bits. */
  lemma RecentExact(q: Quota, st: State, calls: seq<Call>, i: nat)
    requires QuotaOk(q) && q.maxMessagesPerHour > 0 && Monotone(calls) && st.stamps == [] && i < |calls|
    ensures CountAfter(Run(q, st, calls[..i]).stamps, calls[i].now - HOUR) <= q.maxMessagesPerHour
  {
    var front, c := calls[..i], calls[i];
    var now := Run(q, st, front);
    StampsBelow(q, st, front, c.now);
    HourlyBound(q, st, front, c.now - HOUR);
    hide Run;
    assert forall k | 0 <= k < |now.stamps| :: now.stamps[k] in now.stamps;
    WindowIsRecent(now.stamps, c.now - HOUR);
  }

  /** For every call of every run with a monotone clock, which answer it gets, told from the answers of the
      calls before it: the first of the four errors that applies, in this order, and otherwise success. An
      hour is counted in nanoseconds. */
  lemma OutcomesExact(q: Quota, st: State, calls: seq<Call>, i: nat)
    requires QuotaOk(q) && Monotone(calls) && st.stamps == [] && i < |calls|
    requires forall name | name in st.mailboxes :: |st.mailboxes[name]| < 0x1_0000_0000
    ensures var os, c := Outcomes(q, st, calls), calls[i];
            var recent := set j: nat | j < i && os[j].Appended? && c.now - 3600 * 1_000_000_000 < calls[j].stamp <= c.now;
            os[i] ==
              if c.name !in st.mailboxes then NoSuchMailbox
              else
                var held := st.mailboxes[c.name] + PutInto(calls, os, i, c.name);
                if q.maxMessagesPerHour > 0 && |recent| >= q.maxMessagesPerHour then HourQuota
                else if q.maxMessages > 0 && |held| >= q.maxMessages then MessageQuota
                else if q.maxStorageBytes > 0 && Sum(held) + c.size > q.maxStorageBytes then StorageQuota
                else Appended
  {
    hide Run, Outcomes, PutInto, Decide, CountAfter, Sum, AcceptedAfter, HOUR;
    var os, c := Outcomes(q, st, calls), calls[i];
    var before := Run(q, st, calls[..i]);
    RecordedStamps(q, st, calls, i, c.now - HOUR);
    HeldSizes(q, st, calls, i, c.name);
    if q.maxMessagesPerHour > 0 { RecentExact(q, st, calls, i); }
    if q.maxMessages > 0 && c.name in st.mailboxes { CountFits(q, st, calls[..i], c.name); }
    LastHourIs(q, st, calls, i);
    DecideFits(q, before, c);
  }

  lemma LastHourIs(q: Quota, st: State, calls: seq<Call>, i: nat)
    requires Monotone(calls) && i < |calls|
    ensures var os, c := Outcomes(q, st, calls), calls[i];
            AcceptedAfter(calls, os, i, c.now - HOUR)
            == set j: nat | j < i && os[j].Appended? && c.now - 3600 * 1_000_000_000 < calls[j].stamp <= c.now
  {
    hide Run, Outcomes;
  }

  /** Without wrap-around, the decision is what its checks say. */
  lemma DecideFits(q: Quota, st: State, c: Call)
    requires QuotaOk(q)
    requires q.maxMessagesPerHour > 0 ==> CountAfter(st.stamps, c.now - HOUR) <= q.maxMessagesPerHour
    requires q.maxMessages > 0 && c.name in st.mailboxes ==> |st.mailboxes[c.name]| < 0x1_0000_0000
    ensures Decide(q, st, c.name, c.size, c.now) ==
              if c.name !in st.mailboxes then NoSuchMailbox
              else if q.maxMessagesPerHour > 0 && CountAfter(st.stamps, c.now - HOUR) >= q.maxMessagesPerHour then HourQuota
              else if q.maxMessages > 0 && |st.mailboxes[c.name]| >= q.maxMessages then MessageQuota
              else if q.maxStorageBytes > 0 && Sum(st.mailboxes[c.name]) + c.size > q.maxStorageBytes then StorageQuota
              else Appended
  {
    hide CountAfter, Sum;
  }

  /** What Sum adds up. */
  lemma {:induction false} SumConcat(a: seq<nat>, b: seq<nat>)
    ensures Sum(a + b) == Sum(a) + Sum(b) && forall n: nat :: Sum([n]) == n
    decreases |b|
  {
    forall n: nat ensures Sum([n]) == n { assert [n][..0] == []; }
    if b == [] {
      assert a + b == a;
    } else {
      SumConcat(a, b[..|b| - 1]);
      assert (a + b)[..|a + b| - 1] == a + b[..|b| - 1];
    }
  }
}
