/** The mailbox with all its sessions, as a state machine. */
module MailboxRuns {
  // A step is one critical section of the code. Messages are appended, flagged and expunged
  // under the mailbox lock, but the loop of expungeLocked dispatches one EXPUNGE at a time and
  // Poll and Close take only the tracker's locks, so both may fall between two dispatches:
  // while a loop is running, `busy` holds its index and its victims.

  import opened Text
  import opened Views

  const MAX_UID: nat := 0xFFFF_FFFF

  datatype Message = Message(uid: Uid, buf: string, time: int, flags: set<string>)

  function Uids(l: seq<Message>): (us: seq<Uid>)
    ensures |us| == |l| && forall i | 0 <= i < |l| :: us[i] == l[i].uid
  {
    seq(|l|, i requires 0 <= i < |l| => l[i].uid)
  }

  /** The messages of l that are not doomed, in their order. */
  function Keep(l: seq<Message>, doomed: set<Uid>): (r: seq<Message>) {
    if l == [] then []
    else (if l[0].uid in doomed then [] else [l[0]]) + Keep(l[1..], doomed)
  }

  /** One session: the list it was given at SELECT, the messages appended since, every
      update dispatched to it, and how far these have been delivered. */
  datatype Session = Session(base: seq<Uid>, arrivals: seq<Uid>, sent: seq<Update>,
                             delivered: seq<Update>, queue: seq<Update>)

  datatype Loop = Idle | Expunging(i: nat, doomed: set<Uid>)

  datatype State<S> = State(l: seq<Message>, uidNext: Uid, busy: Loop,
                            numMessages: nat, sessions: map<S, Session>, panicked: bool)

  // ---------------------------------------------------------------- dispatch

  /** MailboxTracker.queueUpdate for one session. */
  function Enqueue(s: Session, u: Update, arrived: seq<Uid>): (r: Session) {
    s.(arrivals := s.arrivals + arrived, sent := s.sent + [u], queue := s.queue + [u])
  }

  predicate Refused(u: Update, numMessages: nat) {
    match u
    case Expunge(k) => k == 0 || k > numMessages
    case NumMessages(n) => n == 0 || n < numMessages
    case MailboxFlags(_) => false
    case MessageFlags(_, _, _) => false
  }

  function CountAfter(u: Update, numMessages: nat): (n: nat) {
    match u
    case Expunge(_) => if numMessages == 0 then 0 else numMessages - 1
    case NumMessages(n) => n
    case MailboxFlags(_) => numMessages
    case MessageFlags(_, _, _) => numMessages
  }

  ghost function DispatchAll<S>(m: map<S, Session>, u: Update, arrived: seq<Uid>, source: Option<S>): (r: map<S, Session>)
    ensures r.Keys == m.Keys
  {
    map s | s in m :: if source == Some(s) then m[s] else Enqueue(m[s], u, arrived)
  }

  ghost function Dispatch<S>(st: State<S>, u: Update, arrived: seq<Uid>, source: Option<S>): (r: State<S>) {
    if Refused(u, st.numMessages) then st.(panicked := true)
    else st.(
      sessions := DispatchAll(st.sessions, u, arrived, source),
      numMessages := CountAfter(u, st.numMessages))
  }

  // ---------------------------------------------------------------- steps

  datatype Step<S> =
    | Append(buf: string, time: int, flags: set<string>)
    | SetFlags(seqNum: nat, flags: set<string>, source: Option<S>)
    | BeginExpunge(doomed: set<Uid>)
    | ExpungeNext
    | EndExpunge
    | Select(s: S)
    | Poll(s: S, allowExpunge: bool)
    | Close(s: S)

  /** How much of the queue Poll takes: all of it, or up to the first EXPUNGE. */
  function PollLength(q: seq<Update>, allowExpunge: bool): (n: nat)
    ensures n <= |q|
  {
    if q == [] || (!allowExpunge && q[0].Expunge?) then 0 else 1 + PollLength(q[1..], allowExpunge)
  }

  function Polled(s: Session, allowExpunge: bool): (r: Session) {
    var n := PollLength(s.queue, allowExpunge);
    s.(delivered := s.delivered + s.queue[..n], queue := s.queue[n..])
  }

  ghost predicate Enabled<S>(st: State<S>, step: Step<S>) {
    match step
    case Append(_, _, _) => st.busy.Idle? && st.uidNext < MAX_UID
    case SetFlags(k, _, _) => st.busy.Idle? && 1 <= k <= |st.l|
    case BeginExpunge(_) => st.busy.Idle?
    case ExpungeNext => st.busy.Expunging? && 0 < st.busy.i <= |st.l|
    case EndExpunge => st.busy.Expunging? && st.busy.i == 0
    case Select(s) => st.busy.Idle? && s !in st.sessions
    case Poll(s, _) => s in st.sessions
    case Close(s) => s in st.sessions
  }

  ghost function Apply<S>(st: State<S>, step: Step<S>): (r: State<S>)
    requires Enabled(st, step)
  {
    match step
    case Append(buf, time, flags) =>
      var l := st.l + [Message(st.uidNext, buf, time, flags)];
      Dispatch(st.(l := l, uidNext := st.uidNext + 1), NumMessages(|l|), [st.uidNext], None)
    case SetFlags(k, flags, source) =>
      var msg := st.l[k - 1].(flags := flags);
      Dispatch(st.(l := st.l[k - 1 := msg]), MessageFlags(k, msg.uid, flags), [], source)
    case BeginExpunge(doomed) => st.(busy := Expunging(|st.l|, doomed))
    case ExpungeNext =>
      var i := st.busy.i - 1;
      var next := st.(busy := st.busy.(i := i));
      if st.l[i].uid in st.busy.doomed then Dispatch(next, Expunge(i + 1), [], None) else next
    case EndExpunge => st.(l := Keep(st.l, st.busy.doomed), busy := Idle)
    case Select(s) => st.(sessions := st.sessions[s := Session(Uids(st.l), [], [], [], [])])
    case Poll(s, allow) => st.(sessions := st.sessions[s := Polled(st.sessions[s], allow)])
    case Close(s) => st.(sessions := st.sessions - {s})
  }

  ghost function Init<S>(): (st: State<S>) {
    State([], 1, Idle, 0, map[], false)
  }

  /** A run; a step that is not enabled does nothing. */
  ghost function Run<S>(st: State<S>, steps: seq<Step<S>>): (r: State<S>)
    decreases |steps|
  {
    if steps == [] then st
    else
      var last := Run(st, steps[..|steps| - 1]);
      if Enabled(last, steps[|steps| - 1]) then Apply(last, steps[|steps| - 1]) else last
  }

  // ---------------------------------------------------------------- the invariant

  /** The list as the tracker knows it: inside the expunge loop the tail is already thinned. */
  ghost function Tracked<S>(st: State<S>): (us: seq<Uid>) {
    match st.busy
    case Idle => Uids(st.l)
    case Expunging(i, doomed) =>
      if i <= |st.l| then Uids(st.l[..i]) + Uids(Keep(st.l[i..], doomed)) else []
  }

  /** The list given at SELECT, replayed through the delivered updates and then the queue,
      is the tracked list. */
  ghost predicate Synced(s: Session, tracked: seq<Uid>) {
    && CanReplay(View(s.base, s.arrivals), s.delivered + s.queue)
    && Replay(View(s.base, s.arrivals), s.delivered + s.queue) == View(tracked, [])
  }

  ghost predicate SessionOk(s: Session, tracked: seq<Uid>, uidNext: Uid) {
    && Synced(s, tracked)
    && s.sent == s.delivered + s.queue
    && Ascending(s.base + s.arrivals)
    && (forall u | u in s.base + s.arrivals :: u < uidNext)
  }

  ghost predicate Inv<S>(st: State<S>) {
    && !st.panicked
    && 1 <= st.uidNext <= MAX_UID
    && (st.busy.Expunging? ==> st.busy.i <= |st.l|)
    && Ascending(Uids(st.l))
    && (forall m | m in st.l :: 0 < m.uid < st.uidNext)
    && st.numMessages == |Tracked(st)|
    && (forall s | s in st.sessions :: SessionOk(st.sessions[s], Tracked(st), st.uidNext))
  }

  // ---------------------------------------------------------------- dispatch keeps sessions in step

  lemma EnqueueSynced(s: Session, u: Update, arrived: seq<Uid>, before: seq<Uid>, after: seq<Uid>)
    requires Synced(s, before)
    requires CanApply(View(before, arrived), u) && ApplyUpdate(View(before, arrived), u) == View(after, [])
    ensures Synced(Enqueue(s, u, arrived), after)
  {
    var v, q := View(s.base, s.arrivals), s.delivered + s.queue;
    ReplayMoreArrivals(v, q, arrived);
    assert [] + arrived == arrived;
    ReplaySnoc(v.(arrivals := s.arrivals + arrived), q, u);
    assert s.delivered + (s.queue + [u]) == q + [u];
  }

  lemma ArrivalAscends(known: seq<Uid>, uidNext: Uid)
    requires Ascending(known) && forall u | u in known :: u < uidNext
    ensures Ascending(known + [uidNext])
  {
    assert forall i | 0 <= i < |known| :: known[i] in known;
  }

  /** A dispatched update takes a session from the list before to the list after. */
  lemma EnqueueOk(s: Session, u: Update, arrived: seq<Uid>, before: seq<Uid>, after: seq<Uid>, uidNext: Uid, next: Uid)
    requires SessionOk(s, before, uidNext) && uidNext <= next
    requires CanApply(View(before, arrived), u) && ApplyUpdate(View(before, arrived), u) == View(after, [])
    requires arrived == [] || (arrived == [uidNext] && uidNext < next)
    ensures SessionOk(Enqueue(s, u, arrived), after, next)
  {
    EnqueueSynced(s, u, arrived, before, after);
    ArrivalAscends(s.base + s.arrivals, uidNext);
    assert s.delivered + (s.queue + [u]) == s.delivered + s.queue + [u];
    assert s.base + (s.arrivals + arrived) == s.base + s.arrivals + arrived;
  }

  lemma PolledOk(s: Session, allow: bool, tracked: seq<Uid>, uidNext: Uid)
    requires SessionOk(s, tracked, uidNext)
    ensures SessionOk(Polled(s, allow), tracked, uidNext)
  {
    var n := PollLength(s.queue, allow);
    assert s.delivered + s.queue[..n] + s.queue[n..] == s.delivered + s.queue;
  }

  lemma SelectedOk(list: seq<Uid>, uidNext: Uid)
    requires Ascending(list) && forall u | u in list :: u < uidNext
    ensures SessionOk(Session(list, [], [], [], []), list, uidNext)
  {
    assert list + [] == list;
    assert CanReplay(View(list, []), []);
  }

  // ---------------------------------------------------------------- the expunge loop

  lemma {:induction false} KeepMembers(l: seq<Message>, doomed: set<Uid>, m: Message)
    ensures m in Keep(l, doomed) <==> m in l && m.uid !in doomed
    decreases |l|
  {
    if l != [] {
      assert l == [l[0]] + l[1..];
      KeepMembers(l[1..], doomed, m);
    }
  }

  lemma {:induction false} KeepInOrder(l: seq<Message>, doomed: set<Uid>)
    requires Ascending(Uids(l))
    ensures Ascending(Uids(Keep(l, doomed)))
    decreases |l|
  {
    if l != [] {
      var rest := Keep(l[1..], doomed);
      assert Uids(l)[1..] == Uids(l[1..]);
      KeepInOrder(l[1..], doomed);
      forall k | 0 <= k < |rest| ensures l[0].uid < rest[k].uid {
        KeepMembers(l[1..], doomed, rest[k]);
        var j :| 0 <= j < |l[1..]| && l[1..][j] == rest[k];
        assert Uids(l)[0] < Uids(l)[j + 1];
      }
      assert Uids([l[0]] + rest) == [l[0].uid] + Uids(rest);
    }
  }

  lemma WithoutMiddle(a: seq<Uid>, u: Uid, b: seq<Uid>)
    ensures Without(a + [u] + b, |a|) == a + b
  {
  }

  /** One turn of the loop: the tracked list loses exactly the message at index i, if doomed. */
  lemma ExpungeTurn(l: seq<Message>, i: nat, doomed: set<Uid>)
    requires i < |l|
    ensures var before := Uids(l[..i + 1]) + Uids(Keep(l[i + 1..], doomed));
            var after := Uids(l[..i]) + Uids(Keep(l[i..], doomed));
            after == if l[i].uid in doomed then Without(before, i) else before
  {
    assert l[i..][1..] == l[i + 1..];
    var head, tail := Uids(l[..i]), Keep(l[i + 1..], doomed);
    assert Uids(l[..i + 1]) == head + [l[i].uid];
    if l[i].uid in doomed {
      assert Keep(l[i..], doomed) == tail;
      WithoutMiddle(head, l[i].uid, Uids(tail));
    } else {
      assert Uids(Keep(l[i..], doomed)) == [l[i].uid] + Uids(tail);
      assert head + ([l[i].uid] + Uids(tail)) == head + [l[i].uid] + Uids(tail);
    }
  }

  // ---------------------------------------------------------------- every step keeps the invariant

  lemma DispatchKeeps<S>(st: State<S>, mid: State<S>, u: Update, arrived: seq<Uid>, source: Option<S>)
    requires Inv(st)
    requires mid == st.(l := mid.l, uidNext := mid.uidNext, busy := mid.busy)
    requires st.uidNext <= mid.uidNext <= MAX_UID
    requires mid.busy.Expunging? ==> mid.busy.i <= |mid.l|
    requires Ascending(Uids(mid.l)) && forall m | m in mid.l :: 0 < m.uid < mid.uidNext
    requires arrived == [] || (arrived == [st.uidNext] && st.uidNext < mid.uidNext)
    requires CanApply(View(Tracked(st), arrived), u)
    requires ApplyUpdate(View(Tracked(st), arrived), u) == View(Tracked(mid), [])
    requires source.Some? ==> arrived == [] && Tracked(mid) == Tracked(st)
    ensures Inv(Dispatch(mid, u, arrived, source))
  {
    var next := Dispatch(mid, u, arrived, source);
    assert !Refused(u, mid.numMessages);
    assert Tracked(next) == Tracked(mid);
    forall s | s in next.sessions ensures SessionOk(next.sessions[s], Tracked(next), next.uidNext) {
      assert SessionOk(st.sessions[s], Tracked(st), st.uidNext);
      if source != Some(s) {
        EnqueueOk(st.sessions[s], u, arrived, Tracked(st), Tracked(mid), st.uidNext, mid.uidNext);
      }
    }
  }

  lemma AppendKeeps<S>(st: State<S>, buf: string, time: int, flags: set<string>)
    requires Inv(st) && Enabled(st, Append(buf, time, flags))
    ensures Inv(Apply(st, Append(buf, time, flags)))
  {
    var l := st.l + [Message(st.uidNext, buf, time, flags)];
    var mid := st.(l := l, uidNext := st.uidNext + 1);
    assert Uids(l) == Uids(st.l) + [st.uidNext];
    DispatchKeeps(st, mid, NumMessages(|l|), [st.uidNext], None);
  }

  lemma SetFlagsKeeps<S>(st: State<S>, k: nat, flags: set<string>, source: Option<S>)
    requires Inv(st) && Enabled(st, SetFlags(k, flags, source))
    ensures Inv(Apply(st, SetFlags(k, flags, source)))
  {
    var msg := st.l[k - 1].(flags := flags);
    var mid := st.(l := st.l[k - 1 := msg]);
    assert Uids(mid.l) == Uids(st.l);
    DispatchKeeps(st, mid, MessageFlags(k, msg.uid, flags), [], source);
  }

  lemma ExpungeNextKeeps<S>(st: State<S>)
    requires Inv(st) && Enabled(st, ExpungeNext)
    ensures Inv(Apply(st, ExpungeNext))
  {
    var i := st.busy.i - 1;
    var mid := st.(busy := st.busy.(i := i));
    ExpungeTurn(st.l, i, st.busy.doomed);
    if st.l[i].uid in st.busy.doomed {
      DispatchKeeps(st, mid, Expunge(i + 1), [], None);
    }
  }

  lemma BeginEndKeeps<S>(st: State<S>, step: Step<S>)
    requires Inv(st) && Enabled(st, step) && (step.BeginExpunge? || step.EndExpunge?)
    ensures Inv(Apply(st, step))
    ensures Tracked(Apply(st, step)) == Tracked(st)
  {
    if step.BeginExpunge? {
      assert st.l[..|st.l|] == st.l && Keep(st.l[|st.l|..], step.doomed) == [];
    } else {
      assert st.l[0..] == st.l;
      KeepInOrder(st.l, st.busy.doomed);
      forall m | m in Keep(st.l, st.busy.doomed) ensures m in st.l { KeepMembers(st.l, st.busy.doomed, m); }
    }
  }

  lemma AppendShape<S>(st: State<S>, buf: string, time: int, flags: set<string>)
    requires Inv(st) && Enabled(st, Append(buf, time, flags))
    ensures var l := st.l + [Message(st.uidNext, buf, time, flags)];
            && !Refused(NumMessages(|l|), st.numMessages)
            && Apply(st, Append(buf, time, flags))
               == st.(l := l, uidNext := st.uidNext + 1, numMessages := |l|,
                      sessions := DispatchAll(st.sessions, NumMessages(|l|), [st.uidNext], None))
  {
    IdleCount(st);
  }

  lemma SetFlagsShape<S>(st: State<S>, k: nat, flags: set<string>, source: Option<S>)
    requires Enabled(st, SetFlags(k, flags, source))
    ensures Apply(st, SetFlags(k, flags, source))
            == st.(l := st.l[k - 1 := st.l[k - 1].(flags := flags)],
                   sessions := DispatchAll(st.sessions, MessageFlags(k, st.l[k - 1].uid, flags), [], source))
  {
  }

  lemma ExpungeShape<S>(st: State<S>)
    requires Inv(st) && st.busy.Expunging? && st.busy.i > 0
    ensures Enabled(st, ExpungeNext) && st.busy.i <= st.numMessages
    ensures var i := st.busy.i - 1;
            Apply(st, ExpungeNext)
            == if st.l[i].uid in st.busy.doomed
               then st.(busy := Expunging(i, st.busy.doomed), numMessages := st.numMessages - 1,
                        sessions := DispatchAll(st.sessions, Expunge(i + 1), [], None))
               else st.(busy := Expunging(i, st.busy.doomed))
  {
    ExpungeInRange(st);
  }

  lemma IdleCount<S>(st: State<S>)
    requires Inv(st) && st.busy.Idle?
    ensures st.numMessages == |st.l|
  {
  }

  /** Inside the loop the announced number never exceeds the tracker's count. */
  lemma ExpungeInRange<S>(st: State<S>)
    requires Inv(st) && st.busy.Expunging? && st.busy.i > 0
    ensures Enabled(st, ExpungeNext) && st.busy.i <= st.numMessages
  {
  }

  lemma StepKeeps<S>(st: State<S>, step: Step<S>)
    requires Inv(st) && Enabled(st, step)
    ensures Inv(Apply(st, step))
  {
    match step
    case Append(buf, time, flags) => AppendKeeps(st, buf, time, flags);
    case SetFlags(k, flags, source) => SetFlagsKeeps(st, k, flags, source);
    case BeginExpunge(_) => BeginEndKeeps(st, step);
    case ExpungeNext => ExpungeNextKeeps(st);
    case EndExpunge => BeginEndKeeps(st, step);
    case Select(s) =>
      forall u | u in Uids(st.l) ensures u < st.uidNext {
        var i :| 0 <= i < |st.l| && u == Uids(st.l)[i];
        assert st.l[i] in st.l;
      }
      SelectedOk(Uids(st.l), st.uidNext);
    case Poll(s, allow) => PolledOk(st.sessions[s], allow, Tracked(st), st.uidNext);
    case Close(s) =>
  }

  /** In every state of every run, all open sessions replay to the tracked list, UIDs
      ascend below uidNext, and no dispatch has panicked. */
  lemma {:induction false} RunKeeps<S>(steps: seq<Step<S>>)
    ensures Inv(Run(Init(), steps))
    decreases |steps|
  {
    if steps != [] {
      var front, last := steps[..|steps| - 1], steps[|steps| - 1];
      RunKeeps(front);
      if Enabled(Run(Init(), front), last) { StepKeeps(Run(Init(), front), last); }
    }
  }

  // ---------------------------------------------------------------- what the invariant gives

  lemma ReachableSession<S>(steps: seq<Step<S>>, s: S)
    requires s in Run(Init(), steps).sessions
    ensures var st := Run(Init(), steps);
            SessionOk(st.sessions[s], Tracked(st), st.uidNext)
  {
    RunKeeps(steps);
  }

  /** Between mailbox steps the tracker counts the mailbox's messages and every client will
      see exactly the mailbox once its queue is delivered. */
  lemma QuietMailbox<S>(steps: seq<Step<S>>, s: S)
    requires Run(Init(), steps).busy.Idle?
    ensures var st := Run(Init(), steps);
            && st.numMessages == |st.l|
            && (s in st.sessions ==> Synced(st.sessions[s], Uids(st.l)))
  {
    RunKeeps(steps);
  }

  /** The list that the client of this session sees now. */
  ghost function ClientView(s: Session): (v: View)
    requires CanReplay(View(s.base, s.arrivals), s.delivered)
  {
    Replay(View(s.base, s.arrivals), s.delivered)
  }

  /** In every reachable quiet state the sequence number translations are exact between the
      client's list and the mailbox. */
  lemma ReachableSeqNums<S>(steps: seq<Step<S>>, s: S, n: nat, m: nat)
    requires Run(Init(), steps).busy.Idle? && s in Run(Init(), steps).sessions
    ensures var st := Run(Init(), steps);
            var sess := st.sessions[s];
            CanReplay(View(sess.base, sess.arrivals), sess.delivered)
    ensures var st := Run(Init(), steps);
            var sess, view := st.sessions[s], ClientView(st.sessions[s]).list;
            var e, d := Encode(sess.queue, m, st.numMessages), Decode(sess.queue, n, st.numMessages);
            && (1 <= m <= |st.l| ==>
                  && (e == 0 <==> st.l[m - 1].uid !in view)
                  && (e != 0 ==> e <= |view| && view[e - 1] == st.l[m - 1].uid))
            && (1 <= n <= |view| ==>
                  && (d == 0 <==> view[n - 1] !in Uids(st.l))
                  && (d != 0 ==> d <= |st.l| && st.l[d - 1].uid == view[n - 1]))
            && (1 <= m <= |st.l| && 1 <= n <= |view| ==> (e == n <==> d == m))
  {
    hide Run, Encode, Decode, Replay, CanReplay, Views.Ascending;
    ReachableSession(steps, s);
    QuietMailbox(steps, s);
    var st := Run(Init(), steps);
    var sess := st.sessions[s];
    var v0 := View(sess.base, sess.arrivals);
    ReplayConcat(v0, sess.delivered, sess.queue);
    var v := Replay(v0, sess.delivered);
    ReplayKnown(v0, sess.delivered);
    SeqNumsExact(v, sess.queue, Uids(st.l), n, m);
  }

  /** Every FLAGS update that a Poll delivers names, in the client's list at that moment, the
      message whose UID it was queued with. */
  lemma DeliveredFlags<S>(steps: seq<Step<S>>, s: S, allow: bool, i: nat)
    requires s in Run(Init(), steps).sessions
    requires i < PollLength(Run(Init(), steps).sessions[s].queue, allow)
    requires Run(Init(), steps).sessions[s].queue[i].MessageFlags?
    ensures var sess := Run(Init(), steps).sessions[s];
            var u, v, q := sess.queue[i], View(sess.base, sess.arrivals), sess.delivered + sess.queue[..i];
            CanReplay(v, q) && 1 <= u.seqNum <= |Replay(v, q).list| && Replay(v, q).list[u.seqNum - 1] == u.uid
  {
    hide Run, Replay, CanReplay;
    ReachableSession(steps, s);
    var sess := Run(Init(), steps).sessions[s];
    QueuedFlags(View(sess.base, sess.arrivals), sess.delivered, sess.queue, i);
  }

  lemma QueuedFlags(v: View, delivered: seq<Update>, queue: seq<Update>, i: nat)
    requires CanReplay(v, delivered + queue) && i < |queue| && queue[i].MessageFlags?
    ensures var u, q := queue[i], delivered + queue[..i];
            CanReplay(v, q) && 1 <= u.seqNum <= |Replay(v, q).list| && Replay(v, q).list[u.seqNum - 1] == u.uid
  {
    var q := delivered + queue[..i];
    assert delivered + queue == q + queue[i..];
    ReplayConcat(v, q, queue[i..]);
    hide Replay;
  }

  /** Poll delivers the longest prefix it may: no EXPUNGE in it unless allowed, and what is
      left starts with the EXPUNGE that stopped it. Nothing is lost or reordered. */
  lemma {:induction false} PollTakesPrefix(q: seq<Update>, allow: bool)
    ensures var n := PollLength(q, allow);
            && (allow ==> n == |q|)
            && (!allow ==> forall i | 0 <= i < n :: !q[i].Expunge?)
            && (n < |q| ==> q[n].Expunge?)
            && q[..n] + q[n..] == q
    decreases |q|
  {
    if q != [] && (allow || !q[0].Expunge?) {
      PollTakesPrefix(q[1..], allow);
    }
  }

  // ---------------------------------------------------------------- expungeLocked as a whole

  /** The sequence numbers that the loop announces, last message first, down to index i. */
  function DoomedFrom(l: seq<Message>, doomed: set<Uid>, i: nat): (ks: seq<nat>)
    requires i <= |l|
    decreases |l| - i
  {
    if i == |l| then []
    else DoomedFrom(l, doomed, i + 1) + if l[i].uid in doomed then [i + 1] else []
  }

  function Expunges(ks: seq<nat>): (q: seq<Update>)
    ensures |q| == |ks| && forall i | 0 <= i < |ks| :: q[i] == Expunge(ks[i])
  {
    if ks == [] then [] else Expunges(ks[..|ks| - 1]) + [Expunge(ks[|ks| - 1])]
  }

  /** For any victims: the announced numbers, replayed one by one on the old list, are all in
      range and leave the old list without the victims, in its order. */
  lemma {:induction false} ExpungeReplays(l: seq<Message>, doomed: set<Uid>, i: nat)
    requires i <= |l|
    ensures var q := Expunges(DoomedFrom(l, doomed, i));
            && CanReplay(View(Uids(l), []), q)
            && Replay(View(Uids(l), []), q) == View(Uids(l[..i]) + Uids(Keep(l[i..], doomed)), [])
    decreases |l| - i
  {
    if i == |l| {
      assert l[..i] == l && Keep(l[i..], doomed) == [];
    } else {
      ExpungeReplays(l, doomed, i + 1);
      ExpungeTurn(l, i, doomed);
      var ks := DoomedFrom(l, doomed, i + 1);
      if l[i].uid in doomed {
        assert (ks + [i + 1])[..|ks|] == ks;
        ReplaySnoc(View(Uids(l), []), Expunges(ks), Expunge(i + 1));
      } else {
        assert ks + [] == ks;
      }
    }
  }

  /** k turns of the loop of expungeLocked. */
  ghost function Turns<S>(st: State<S>, k: nat): (r: State<S>) {
    if k == 0 then st
    else
      var last := Turns(st, k - 1);
      if Enabled(last, ExpungeNext) then Apply(last, ExpungeNext) else last
  }

  /** A whole expungeLocked call in which no other step interferes. */
  ghost function ExpungeAll<S>(st: State<S>, doomed: set<Uid>): (r: State<S>)
    requires st.busy.Idle?
  {
    var last := Turns(Apply(st, BeginExpunge(doomed)), |st.l|);
    if Enabled(last, EndExpunge) then Apply(last, EndExpunge) else last
  }

  /** It is a run of the state machine. */
  lemma {:induction false} TurnsAreSteps<S>(st: State<S>, k: nat)
    ensures exists steps :: Run(st, steps) == Turns(st, k)
  {
    if k == 0 {
      assert Run(st, []) == Turns(st, 0);
    } else {
      TurnsAreSteps(st, k - 1);
      var steps :| Run(st, steps) == Turns(st, k - 1);
      assert (steps + [ExpungeNext])[..|steps|] == steps;
      assert Run(st, steps + [ExpungeNext]) == Turns(st, k);
    }
  }

  lemma TurnEffect<S>(st: State<S>, s: S)
    requires Inv(st) && st.busy.Expunging? && st.busy.i > 0 && s in st.sessions
    ensures Enabled(st, ExpungeNext)
    ensures var r, i := Apply(st, ExpungeNext), st.busy.i - 1;
            && r.l == st.l && r.busy == Expunging(i, st.busy.doomed) && s in r.sessions
            && r.sessions[s].queue
               == st.sessions[s].queue + if st.l[i].uid in st.busy.doomed then [Expunge(i + 1)] else []
  {
    ExpungeInRange(st);
    hide Inv;
  }

  lemma DoomedStep(l: seq<Message>, doomed: set<Uid>, i: nat)
    requires i < |l|
    ensures Expunges(DoomedFrom(l, doomed, i))
            == Expunges(DoomedFrom(l, doomed, i + 1)) + if l[i].uid in doomed then [Expunge(i + 1)] else []
  {
    var ks := DoomedFrom(l, doomed, i + 1);
    assert (ks + [i + 1])[..|ks|] == ks;
    assert ks + [] == ks;
  }

  lemma NoneDoomed(l: seq<Message>, doomed: set<Uid>)
    ensures Expunges(DoomedFrom(l, doomed, |l|)) == []
  {
  }

  /** Every session's queue grows by exactly the announced numbers, in order. */
  lemma {:induction false} TurnsQueue<S>(st: State<S>, k: nat, s: S)
    requires Inv(st) && st.busy.Expunging? && st.busy.i == |st.l| && k <= |st.l| && s in st.sessions
    ensures var r := Turns(st, k);
            && Inv(r) && r.l == st.l && r.busy == Expunging(|st.l| - k, st.busy.doomed)
            && s in r.sessions
            && r.sessions[s].queue == st.sessions[s].queue + Expunges(DoomedFrom(st.l, st.busy.doomed, |st.l| - k))
  {
    hide Inv, Apply, Enabled, Expunges, DoomedFrom;
    NoneDoomed(st.l, st.busy.doomed);
    if k > 0 {
      TurnsQueue(st, k - 1, s);
      var r := Turns(st, k - 1);
      TurnEffect(r, s);
      ExpungeNextKeeps(r);
      DoomedStep(st.l, st.busy.doomed, |st.l| - k);
    }
  }
}
