/** COPY and MOVE between two mailboxes (imapserver/imapmemserver/session.go). */
module CopyMove {
  // The source stays locked for the whole command. The destination is locked once for every copy, so
  // appends of other sessions may fall in between: `others` says which come before each turn.

  import opened Text
  import opened Views
  import opened MailboxRuns
  import opened Tracker
  import opened Mailbox
  import opened NumSet
  import opened StaticSets

  /** The messages a command addresses: by the client's sequence numbers or by UID. */
  datatype Selector = Selector(byUid: bool, ranges: seq<Range>)

  /** A message that another session appends. */
  datatype Incoming = Incoming(buf: string, time: int, flags: seq<string>)

  /** All that decides what a command does: the resolved numbers, the view's queue, the source list, the
      appends of others before each turn, and the destination's next UID. */
  datatype Job = Job(byUid: bool, ranges: seq<Range>, q: seq<Update>, l: seq<Message>, others: seq<seq<Incoming>>, next: Uid)

  /** What "*" stands for, in 32 bits. */
  function MaxOf(byUid: bool, count: nat, uidNext: Uid): (n: uint32) {
    if byUid then (uidNext + 0xFFFF_FFFF) % 0x1_0000_0000 else count % 0x1_0000_0000
  }

  /** The number that the message at index i goes by: its UID, or the client's sequence number, 0 if the
      client does not know it yet. */
  function NumberOf(j: Job, i: nat): (n: nat)
    requires i < |j.l|
  {
    if j.byUid then j.l[i].uid else Encode(j.q, i + 1, |j.l|)
  }

  /** Whether forEachLocked visits the message at index i. */
  predicate Picks(j: Job, i: nat)
    requires i < |j.l|
  {
    NumberOf(j, i) <= MAX_UINT32 && Found(j.ranges, NumberOf(j, i))
  }

  /** The visited messages among the first k, in mailbox order. */
  function Picked(j: Job, k: nat): (r: seq<Message>)
    requires k <= |j.l|
  {
    if k == 0 then [] else Picked(j, k - 1) + if Picks(j, k - 1) then [j.l[k - 1]] else []
  }

  ghost function Arrived(ins: seq<Incoming>, next: Uid): (r: seq<Message>)
    ensures |r| == |ins|
  {
    if ins == [] then []
    else
      var m := ins[|ins| - 1];
      Arrived(ins[..|ins| - 1], next) + [Message(next + |ins| - 1, m.buf, m.time, LowerCased(m.flags))]
  }

  /** What others append before turn k, after the first k turns. */
  ghost function WithOthers(j: Job, k: nat): (w: seq<Message>)
    requires k < |j.l| == |j.others|
    decreases k, 1
  {
    Woven(j, k) + Arrived(j.others[k], j.next + |Woven(j, k)|)
  }

  /** All that the destination gets in the first k turns: the copies, and the messages of others between them. */
  ghost function Woven(j: Job, k: nat): (w: seq<Message>)
    requires k <= |j.l| == |j.others|
    decreases k, 0
  {
    if k == 0 then []
    else
      var w := WithOthers(j, k - 1);
      w + if Picks(j, k - 1) then [j.l[k - 1].(uid := j.next + |w|)] else []
  }

  /** The copies alone. */
  ghost function Copies(j: Job, k: nat): (r: seq<Message>)
    requires k <= |j.l| == |j.others|
  {
    if k == 0 then []
    else Copies(j, k - 1) + if Picks(j, k - 1) then [j.l[k - 1].(uid := j.next + |WithOthers(j, k - 1)|)] else []
  }

  lemma {:induction false} PickedInOrder(j: Job, k: nat)
    requires k <= |j.l| && Views.Ascending(Uids(j.l))
    ensures var r := Picked(j, k);
            && Views.Ascending(Uids(r))
            && (forall m | m in r :: exists i | 0 <= i < k :: j.l[i] == m && Picks(j, i))
            && (forall i | 0 <= i < k && Picks(j, i) :: j.l[i] in r)
  {
    hide Picks;
    if k > 0 {
      PickedInOrder(j, k - 1);
      var front := Picked(j, k - 1);
      forall i | 0 <= i < |front| ensures front[i].uid < j.l[k - 1].uid {
        assert front[i] in front;
        var n :| 0 <= n < k - 1 && j.l[n] == front[i];
        assert Uids(j.l)[n] < Uids(j.l)[k - 1];
      }
    }
  }

  /** The copies are the visited messages one by one, with the same body, time and flags; their UIDs
      ascend, and each is where its UID says among the new messages of the destination. */
  lemma {:induction false} CopiesInOrder(j: Job, k: nat)
    requires k <= |j.l| == |j.others|
    ensures var r, p, w := Copies(j, k), Picked(j, k), Woven(j, k);
            && |r| == |p| && (forall i | 0 <= i < |p| :: r[i] == p[i].(uid := r[i].uid))
            && (forall i | 0 <= i < |r| :: j.next <= r[i].uid < j.next + |w| && w[r[i].uid - j.next] == r[i])
            && (forall i, n | 0 <= i < n < |r| :: r[i].uid < r[n].uid)
  {
    hide Picks, Arrived;
    if k > 0 {
      CopiesInOrder(j, k - 1);
      var w := WithOthers(j, k - 1);
      assert forall i | 0 <= i < |Woven(j, k - 1)| :: w[i] == Woven(j, k - 1)[i];
    }
  }

  lemma {:induction false} WovenGrows(j: Job, k: nat, n: nat)
    requires k <= n <= |j.l| == |j.others|
    ensures |Woven(j, k)| <= |Woven(j, n)|
    ensures k < n ==> |WithOthers(j, k)| + (if Picks(j, k) then 1 else 0) <= |Woven(j, n)|
    decreases n
  {
    hide Picks, Arrived;
    if k < n - 1 { WovenGrows(j, k, n - 1); }
  }

  // ---------------------------------------------------------------- the commands

  datatype CopyResult =
    | NoSuchMailbox
    | SameMailbox
    | Copied(sourceUids: seq<Range>, destUids: seq<Range>)

  /** A set lists the UIDs in ascending order. */
  ghost predicate Lists(ranges: seq<Range>, us: seq<Uid>) {
    Canonical(ranges) && Static(ranges) && NumsOf(ranges) == us
  }

  /** The two UID sets of a COPYUID response: the k-th numbers of both name a message and its copy. */
  ghost predicate NamesCopies(r: CopyResult, picked: seq<Message>, copies: seq<Message>) {
    && r.Copied? && |picked| == |copies|
    && (forall k | 0 <= k < |picked| :: copies[k] == picked[k].(uid := copies[k].uid))
    && Lists(r.sourceUids, Uids(picked)) && Lists(r.destUids, Uids(copies))
  }

  ghost predicate Fits(ns: seq<nat>) { forall i | 0 <= i < |ns| :: ns[i] <= MAX_UINT32 }

  lemma FilledLists(us: seq<Uid>)
    requires Views.Ascending(us) && Fits(us) && forall i | 0 <= i < |us| :: us[i] > 0
    ensures Lists(AddNums([], us), us)
  {
    assert forall u | u in us :: u > 0;
    AscendingRoundTrip(us);
  }

  lemma PickedUids<S>(st: State<S>, j: Job)
    requires Inv(st) && j.l == st.l
    ensures var us := Uids(Picked(j, |j.l|)); Views.Ascending(us) && Fits(us) && forall i | 0 <= i < |us| :: us[i] > 0
  {
    var picked := Picked(j, |j.l|);
    PickedInOrder(j, |j.l|);
    forall i | 0 <= i < |picked| ensures 0 < Uids(picked)[i] <= MAX_UID { assert picked[i] in picked; }
  }

  lemma CopiesUids(j: Job)
    requires |j.l| == |j.others| && j.next > 0 && j.next + |Woven(j, |j.l|)| <= MAX_UID
    ensures var us := Uids(Copies(j, |j.l|)); Views.Ascending(us) && Fits(us) && forall i | 0 <= i < |us| :: us[i] > 0
  {
    CopiesInOrder(j, |j.l|);
    hide Copies, Woven;
  }

  /** Whatever others append meanwhile, the k-th numbers of both sets name a message and its copy, so the
      two sets have the same size. */
  lemma PickedNamed<S>(st: State<S>, j: Job)
    requires Inv(st) && j.l == st.l && |j.l| == |j.others| && j.next > 0 && j.next + |Woven(j, |j.l|)| <= MAX_UID
    ensures var picked, copies := Picked(j, |j.l|), Copies(j, |j.l|);
            && Fits(Uids(picked)) && Fits(Uids(copies))
            && NamesCopies(Copied(AddNums([], Uids(picked)), AddNums([], Uids(copies))), picked, copies)
  {
    hide Inv, Picks;
    PickedUids(st, j);
    CopiesUids(j);
    CopiesInOrder(j, |j.l|);
    hide Picked, Copies, Woven;
    FilledLists(Uids(Picked(j, |j.l|)));
    FilledLists(Uids(Copies(j, |j.l|)));
  }

  /** Two mailboxes share no objects. */
  ghost predicate Separate(a: Mailbox, b: Mailbox)
    reads a, a.tracker, a.tracker.sessions, b, b.tracker, b.tracker.sessions
  {
    && a.Valid() && a.busy.Idle? && b.Valid() && b.busy.Idle?
    && a != b && a.tracker != b.tracker
    && a.tracker.sessions !! b.tracker.sessions
  }

  /** What the command comes to when it starts. */
  ghost function JobOf(src: Mailbox, view: SessionTracker, sel: Selector, dest: Mailbox, others: seq<seq<Incoming>>): (j: Job)
    reads src, view, dest
  {
    Job(sel.byUid, Resolved(sel.ranges, MaxOf(sel.byUid, |src.l|, src.uidNext)), view.queue, src.l, others, dest.uidNext)
  }

  /** The command can start: the view is open, and the destination does not run out of UIDs. */
  ghost predicate Ready(src: Mailbox, view: SessionTracker, sel: Selector, dest: Mailbox, others: seq<seq<Incoming>>)
    reads src, src.tracker, src.tracker.sessions, dest, dest.tracker, dest.tracker.sessions, view
  {
    && Separate(src, dest) && view in src.tracker.sessions && |others| == |src.l|
    && dest.uidNext + |Woven(JobOf(src, view, sel, dest, others), |src.l|)| <= MAX_UID
  }

  // ---------------------------------------------------------------- the loop

  lemma InvBounds<S>(st: State<S>, i: nat)
    requires Inv(st) && i < |st.l|
    ensures st.l[i].uid < MAX_UID
  {
    assert st.l[i] in st.l;
  }

  lemma EncodeBound(st: State<SessionTracker>, view: SessionTracker, m: nat)
    requires Inv(st) && st.busy.Idle? && view in st.sessions
    ensures Encode(st.sessions[view].queue, m, |st.l|) <= MAX_UID
  {
    var sess := st.sessions[view];
    assert SessionOk(sess, Uids(st.l), st.uidNext);
    var v0 := View(sess.base, sess.arrivals);
    ReplayConcat(v0, sess.delivered, sess.queue);
    var v := Replay(v0, sess.delivered);
    ReplayKnown(v0, sess.delivered);
    EncodeExact(v, sess.queue, Uids(st.l), m);
    AscendingLength(Known(v), st.uidNext);
  }

  lemma {:induction false} AscendingLength(s: seq<Uid>, bound: nat)
    requires Views.Ascending(s) && forall u | u in s :: u < bound
    ensures |s| <= bound
    decreases |s|
  {
    if s != [] {
      var front, last := s[..|s| - 1], s[|s| - 1];
      assert last in s;
      AscendingLength(front, last);
    }
  }

  /** Whether forEachLocked visits message i, as the code decides it on the resolved set. */
  method IsPicked(src: Mailbox, view: SessionTracker, byUid: bool, ranges: seq<Range>, i: nat, ghost j: Job) returns (b: bool)
    requires src.Valid() && src.busy.Idle? && view in src.tracker.sessions && i < |src.l|
    requires j.byUid == byUid && j.ranges == ranges && j.q == view.queue && j.l == src.l
    ensures b <==> Picks(j, i)
  {
    ghost var st := src.Abs();
    IdleCount(st);
    InvBounds(st, i);
    EncodeBound(st, view, i + 1);
    hide Inv, Found;
    if byUid {
      b := Lookup(ranges, src.l[i].uid);
    } else {
      var n := view.EncodeSeqNum(i + 1);
      b := Lookup(ranges, n);
    }
  }

  /** The appends of other sessions that fall before a turn. */
  method Meanwhile(dest: Mailbox, ins: seq<Incoming>)
    requires dest.Valid() && dest.busy.Idle? && dest.uidNext + |ins| <= MAX_UID
    modifies dest, dest.tracker, dest.tracker.sessions
    ensures dest.Valid() && dest.busy.Idle? && dest.tracker.sessions == old(dest.tracker.sessions)
    ensures dest.l == old(dest.l) + Arrived(ins, old(dest.uidNext)) && dest.uidNext == old(dest.uidNext) + |ins|
  {
    hide Inv, LowerFlags, LowerCased;
    for i := 0 to |ins|
      invariant dest.Valid() && dest.busy.Idle? && dest.tracker.sessions == old(dest.tracker.sessions)
      invariant dest.l == old(dest.l) + Arrived(ins[..i], old(dest.uidNext)) && dest.uidNext == old(dest.uidNext) + i
    {
      assert ins[..i + 1][..i] == ins[..i];
      AppendOne(dest, ins[i]);
    }
    assert ins[..|ins|] == ins;
  }

  method AppendOne(dest: Mailbox, m: Incoming)
    requires dest.Valid() && dest.busy.Idle? && dest.uidNext < MAX_UID
    modifies dest, dest.tracker, dest.tracker.sessions
    ensures dest.Valid() && dest.busy.Idle? && dest.tracker.sessions == old(dest.tracker.sessions)
    ensures dest.l == old(dest.l) + [Message(old(dest.uidNext), m.buf, m.time, LowerCased(m.flags))]
    ensures dest.uidNext == old(dest.uidNext) + 1
  {
    hide Inv, LowerFlags, LowerCased;
    IdleCount(dest.Abs());
    var uid := dest.AppendBytes(m.buf, m.time, m.flags);
  }

  /** The set holds the numbers, added one by one. */
  ghost predicate Collected(s: Set, ns: seq<nat>)
    reads s
  {
    s.Valid() && Fits(ns) && s.ranges == AddNums([], ns)
  }

  method Collect(s: Set, n: uint32, ghost ns: seq<nat>)
    requires Collected(s, ns)
    modifies s
    ensures Collected(s, ns + [n])
  {
    assert (ns + [n])[..|ns|] == ns;
    assert [n][..0] == [];
    s.AddNum([n]);
  }

  lemma UidsSnoc(ms: seq<Message>, m: Message)
    ensures Uids(ms + [m]) == Uids(ms) + [m.uid]
  {
  }

  /** The callback of COPY for one visited message. */
  method CopyOne(msg: Message, dest: Mailbox, sourceUids: Set, destUids: Set, ghost picked: seq<Message>, ghost copies: seq<Message>)
    requires dest.Valid() && dest.busy.Idle? && dest.uidNext < MAX_UID
    requires LowerFlags([msg]) && msg.uid <= MAX_UID
    requires Collected(sourceUids, Uids(picked)) && Collected(destUids, Uids(copies)) && sourceUids != destUids
    modifies dest, dest.tracker, dest.tracker.sessions, sourceUids, destUids
    ensures dest.Valid() && dest.busy.Idle? && dest.tracker.sessions == old(dest.tracker.sessions)
    ensures dest.uidNext == old(dest.uidNext) + 1
    ensures dest.l == old(dest.l) + [msg.(uid := old(dest.uidNext))]
    ensures Collected(sourceUids, Uids(picked + [msg]))
    ensures Collected(destUids, Uids(copies + [msg.(uid := old(dest.uidNext))]))
  {
    hide Inv, LowerFlags, Uids, Canonical, AddNums, Fits;
    var uid := dest.CopyMsg(msg);
    UidsSnoc(picked, msg);
    UidsSnoc(copies, msg.(uid := uid));
    Collect(sourceUids, msg.uid, Uids(picked));
    Collect(destUids, uid, Uids(copies));
  }

  /** How far COPY has come after k turns. */
  ghost predicate Copying(j: Job, k: nat, dest: Mailbox, l0: seq<Message>, sourceUids: Set, destUids: Set)
    requires k <= |j.l| == |j.others|
    reads dest, sourceUids, destUids
  {
    && dest.l == l0 + Woven(j, k) && dest.uidNext == j.next + |Woven(j, k)|
    && Collected(sourceUids, Uids(Picked(j, k))) && Collected(destUids, Uids(Copies(j, k)))
    && sourceUids != destUids
  }

  lemma CanBeCopied(src: Mailbox, i: nat)
    requires src.Valid() && i < |src.l|
    ensures LowerFlags([src.l[i]]) && src.l[i].uid <= MAX_UID
  {
    assert src.l[i] in src.l;
    InvBounds(src.Abs(), i);
    hide Inv;
  }

  /** As Copying(k), and others have made their appends before turn k. */
  ghost predicate Waiting(j: Job, k: nat, dest: Mailbox, l0: seq<Message>, sourceUids: Set, destUids: Set)
    requires k < |j.l| == |j.others|
    reads dest, sourceUids, destUids
  {
    && dest.l == l0 + WithOthers(j, k) && dest.uidNext == j.next + |WithOthers(j, k)|
    && Collected(sourceUids, Uids(Picked(j, k))) && Collected(destUids, Uids(Copies(j, k)))
    && sourceUids != destUids
  }

  method OthersAppend(dest: Mailbox, i: nat, ins: seq<Incoming>, sourceUids: Set, destUids: Set, ghost l0: seq<Message>, ghost j: Job)
    requires dest.Valid() && dest.busy.Idle?
    requires i < |j.l| == |j.others| && j.others[i] == ins && j.next + |WithOthers(j, i)| <= MAX_UID
    requires Copying(j, i, dest, l0, sourceUids, destUids)
    modifies dest, dest.tracker, dest.tracker.sessions
    ensures dest.Valid() && dest.busy.Idle? && dest.tracker.sessions == old(dest.tracker.sessions)
    ensures Waiting(j, i, dest, l0, sourceUids, destUids)
  {
    hide Inv, LowerFlags, Picks, Canonical, AddNums, Collected, Arrived, Uids, Picked, Copies, Woven;
    Meanwhile(dest, ins);
  }

  method CopyPicked(dest: Mailbox, i: nat, msg: Message, sourceUids: Set, destUids: Set, ghost l0: seq<Message>, ghost j: Job)
    requires dest.Valid() && dest.busy.Idle? && dest.uidNext < MAX_UID
    requires i < |j.l| == |j.others| && msg == j.l[i] && LowerFlags([msg]) && msg.uid <= MAX_UID
    requires Picks(j, i) && Waiting(j, i, dest, l0, sourceUids, destUids)
    modifies dest, dest.tracker, dest.tracker.sessions, sourceUids, destUids
    ensures dest.Valid() && dest.busy.Idle? && dest.tracker.sessions == old(dest.tracker.sessions)
    ensures Copying(j, i + 1, dest, l0, sourceUids, destUids)
  {
    hide Inv, LowerFlags, Picks, Canonical, AddNums, Collected, Arrived, Uids, WithOthers;
    CopyOne(msg, dest, sourceUids, destUids, Picked(j, i), Copies(j, i));
  }

  lemma NothingCopied(dest: Mailbox, i: nat, sourceUids: Set, destUids: Set, l0: seq<Message>, j: Job)
    requires i < |j.l| == |j.others| && !Picks(j, i) && Waiting(j, i, dest, l0, sourceUids, destUids)
    ensures Copying(j, i + 1, dest, l0, sourceUids, destUids)
  {
    hide Picks, Collected, Uids, WithOthers;
    var w, p, c := WithOthers(j, i), Picked(j, i), Copies(j, i);
    assert w + [] == w && p + [] == p && c + [] == c;
  }

  /** What a turn does to the destination: the appends of others, then the copy of a visited message. */
  method CopyTurn(b: bool, dest: Mailbox, i: nat, msg: Message, ins: seq<Incoming>, sourceUids: Set, destUids: Set,
                  ghost l0: seq<Message>, ghost j: Job)
    requires dest.Valid() && dest.busy.Idle?
    requires i < |j.l| == |j.others| && j.others[i] == ins && msg == j.l[i] && LowerFlags([msg]) && msg.uid <= MAX_UID
    requires b == Picks(j, i) && j.next + |WithOthers(j, i)| + (if b then 1 else 0) <= MAX_UID
    requires Copying(j, i, dest, l0, sourceUids, destUids)
    modifies dest, dest.tracker, dest.tracker.sessions, sourceUids, destUids
    ensures dest.Valid() && dest.busy.Idle? && dest.tracker.sessions == old(dest.tracker.sessions)
    ensures Copying(j, i + 1, dest, l0, sourceUids, destUids)
  {
    hide Inv, LowerFlags, Picks, Copying, Woven, WithOthers, Picked, Copies, Collected, Uids;
    OthersAppend(dest, i, ins, sourceUids, destUids, l0, j);
    if b {
      CopyPicked(dest, i, msg, sourceUids, destUids, l0, j);
    } else {
      NothingCopied(dest, i, sourceUids, destUids, l0, j);
    }
  }

  /** One turn of forEachLocked with the callback of COPY. */
  method CopyVisit(src: Mailbox, view: SessionTracker, byUid: bool, ranges: seq<Range>, i: nat, ins: seq<Incoming>,
                   dest: Mailbox, sourceUids: Set, destUids: Set, ghost l0: seq<Message>, ghost j: Job) returns (b: bool)
    requires Separate(src, dest) && view in src.tracker.sessions && i < |src.l|
    requires j.byUid == byUid && j.ranges == ranges && j.q == view.queue && j.l == src.l
    requires |j.others| == |j.l| && j.others[i] == ins && j.next + |Woven(j, |j.l|)| <= MAX_UID
    requires Copying(j, i, dest, l0, sourceUids, destUids)
    modifies dest, dest.tracker, dest.tracker.sessions, sourceUids, destUids
    ensures Separate(src, dest) && dest.tracker.sessions == old(dest.tracker.sessions)
    ensures Copying(j, i + 1, dest, l0, sourceUids, destUids)
    ensures b <==> Picks(j, i)
  {
    hide Inv, LowerFlags, Picks, Copying, Woven, WithOthers, Picked, Copies, Collected, Uids, Mailbox.Abs, Mailbox.Valid;
    WovenGrows(j, i, |j.l|);
    CanBeCopied(src, i);
    b := IsPicked(src, view, byUid, ranges, i, j);
    CopyTurn(b, dest, i, src.l[i], ins, sourceUids, destUids, l0, j);
  }

  ghost function UidSet(ms: seq<Message>): (r: set<Uid>) { set m | m in ms :: m.uid }

  lemma UidSetSnoc(ms: seq<Message>, m: Message)
    ensures UidSet(ms + [m]) == UidSet(ms) + {m.uid}
  {
  }

  lemma CopyingStart(j: Job, dest: Mailbox, sourceUids: Set, destUids: Set)
    requires sourceUids.Valid() && sourceUids.ranges == [] && destUids.Valid() && destUids.ranges == []
    requires sourceUids != destUids && |j.l| == |j.others| && j.next == dest.uidNext
    ensures Copying(j, 0, dest, dest.l, sourceUids, destUids) && UidSet(Picked(j, 0)) == {}
  {
    assert dest.l + [] == dest.l;
  }

  method CopyLoop(src: Mailbox, view: SessionTracker, byUid: bool, ranges: seq<Range>, dest: Mailbox, others: seq<seq<Incoming>>, ghost j: Job)
    returns (sourceUids: Set, destUids: Set, visited: set<Uid>)
    requires Separate(src, dest) && view in src.tracker.sessions && |others| == |src.l|
    requires j == Job(byUid, ranges, view.queue, src.l, others, dest.uidNext) && j.next + |Woven(j, |j.l|)| <= MAX_UID
    modifies dest, dest.tracker, dest.tracker.sessions
    ensures Separate(src, dest) && dest.tracker.sessions == old(dest.tracker.sessions)
    ensures Copying(j, |j.l|, dest, old(dest.l), sourceUids, destUids) && visited == UidSet(Picked(j, |j.l|))
  {
    hide Inv, LowerFlags, Picks, Canonical, UidSet, Copying, Woven;
    visited := {};
    sourceUids := new Set();
    destUids := new Set();
    CopyingStart(j, dest, sourceUids, destUids);
    for i := 0 to |src.l|
      invariant Separate(src, dest) && dest.tracker.sessions == old(dest.tracker.sessions)
      invariant Copying(j, i, dest, old(dest.l), sourceUids, destUids)
      invariant visited == UidSet(Picked(j, i))
    {
      var b := CopyVisit(src, view, byUid, ranges, i, others[i], dest, sourceUids, destUids, old(dest.l), j);
      if b {
        visited := visited + {src.l[i].uid};
        UidSetSnoc(Picked(j, i), src.l[i]);
      }
      assert Picked(j, i) + [] == Picked(j, i);
    }
  }

  /** The part that COPY and MOVE share. */
  method CopyAll(src: Mailbox, view: SessionTracker, sel: Selector, dest: Mailbox, others: seq<seq<Incoming>>)
    returns (r: CopyResult, visited: set<Uid>)
    requires Ready(src, view, sel, dest, others)
    modifies dest, dest.tracker, dest.tracker.sessions
    ensures Separate(src, dest) && dest.tracker.sessions == old(dest.tracker.sessions) && r.Copied?
    ensures var j := old(JobOf(src, view, sel, dest, others));
            && dest.l == old(dest.l) + Woven(j, |j.l|)
            && NamesCopies(r, Picked(j, |j.l|), Copies(j, |j.l|))
            && visited == UidSet(Picked(j, |j.l|))
  {
    ghost var j := JobOf(src, view, sel, dest, others);
    var max := MaxOf(sel.byUid, |src.l|, src.uidNext);
    var ranges := Resolve(sel.ranges, max);
    PickedNamed(src.Abs(), j) by { assert dest.Valid(); FirstUid(dest.Abs()); }
    hide Inv, LowerFlags, Picks, NamesCopies, Picked, Copies, Woven, UidSet;
    var sourceUids, destUids, us := CopyLoop(src, view, sel.byUid, ranges, dest, others, j);
    r, visited := Copied(sourceUids.ranges, destUids.ranges), us;
  }

  lemma FirstUid<S>(st: State<S>)
    requires Inv(st)
    ensures st.uidNext > 0
  {
  }

  /** COPY: the visited messages are appended to the destination in order, whatever others append between
      them; the source is left alone, and the response pairs every message with its copy. */
  method Copy(src: Mailbox, view: SessionTracker, sel: Selector, dest: Mailbox?, others: seq<seq<Incoming>>) returns (r: CopyResult)
    requires src.Valid() && src.busy.Idle? && view in src.tracker.sessions
    requires dest != null && dest != src ==> Ready(src, view, sel, dest, others)
    modifies if dest != null && dest != src then {dest, dest.tracker} + dest.tracker.sessions else {}
    ensures r.NoSuchMailbox? <==> dest == null
    ensures r.SameMailbox? <==> dest == src
    ensures r.Copied? ==>
              var j := old(JobOf(src, view, sel, dest, others));
              && Separate(src, dest) && dest.l == old(dest.l) + Woven(j, |j.l|)
              && NamesCopies(r, Picked(j, |j.l|), Copies(j, |j.l|))
  {
    if dest == null {
      return NoSuchMailbox;
    } else if dest == src {
      return SameMailbox;
    }
    hide Inv, LowerFlags, Picks, Woven, Picked, Copies, NamesCopies;
    var visited;
    r, visited := CopyAll(src, view, sel, dest, others);
  }

  // ---------------------------------------------------------------- MOVE

  method MoveAll(src: Mailbox, view: SessionTracker, sel: Selector, dest: Mailbox, others: seq<seq<Incoming>>)
    returns (r: CopyResult, seqNums: seq<nat>)
    requires Ready(src, view, sel, dest, others)
    modifies src, src.tracker, src.tracker.sessions, dest, dest.tracker, dest.tracker.sessions
    ensures Separate(src, dest) && r.Copied?
    ensures var j := old(JobOf(src, view, sel, dest, others));
            && dest.l == old(dest.l) + Woven(j, |j.l|)
            && NamesCopies(r, Picked(j, |j.l|), Copies(j, |j.l|))
            && src.l == Keep(j.l, UidSet(Picked(j, |j.l|)))
            && seqNums == DoomedFrom(j.l, UidSet(Picked(j, |j.l|)), 0)
  {
    hide Inv, LowerFlags, Picks, NamesCopies, Keep, DoomedFrom, Woven, Picked, Copies, UidSet, Mailbox.Abs, Mailbox.Valid;
    var visited;
    r, visited := CopyAll(src, view, sel, dest, others);
    seqNums := src.ExpungeLocked(visited);
  }

  /** MOVE: as COPY, and the source then keeps exactly the messages that were not copied. */
  method Move(src: Mailbox, view: SessionTracker, sel: Selector, dest: Mailbox?, others: seq<seq<Incoming>>)
    returns (r: CopyResult, seqNums: seq<nat>)
    requires src.Valid() && src.busy.Idle? && view in src.tracker.sessions
    requires dest != null && dest != src ==> Ready(src, view, sel, dest, others)
    modifies if dest != null && dest != src
             then {src, src.tracker, dest, dest.tracker} + src.tracker.sessions + dest.tracker.sessions else {}
    ensures r.NoSuchMailbox? <==> dest == null
    ensures r.SameMailbox? <==> dest == src
    ensures r.Copied? ==>
              var j := old(JobOf(src, view, sel, dest, others));
              && Separate(src, dest) && dest.l == old(dest.l) + Woven(j, |j.l|)
              && NamesCopies(r, Picked(j, |j.l|), Copies(j, |j.l|))
              && src.l == Keep(j.l, UidSet(Picked(j, |j.l|)))
              && seqNums == DoomedFrom(j.l, UidSet(Picked(j, |j.l|)), 0)
  {
    if dest == null {
      return NoSuchMailbox, [];
    } else if dest == src {
      return SameMailbox, [];
    }
    hide Inv, LowerFlags, Picks, NamesCopies, Keep, DoomedFrom, Woven, Picked, Copies, UidSet, Mailbox.Abs, Mailbox.Valid;
    r, seqNums := MoveAll(src, view, sel, dest, others);
  }

  /** What MOVE leaves is exactly what it did not copy. */
  lemma MoveSplits<S>(st: State<S>, j: Job, m: Message)
    requires Inv(st) && j.l == st.l && m in st.l
    ensures m in Keep(j.l, UidSet(Picked(j, |j.l|))) <==> m !in Picked(j, |j.l|)
  {
    var picked := Picked(j, |j.l|);
    KeepMembers(j.l, UidSet(picked), m);
    PickedInOrder(j, |j.l|);
    hide Picks, Picked;
    if m.uid in UidSet(picked) {
      var p :| p in picked && p.uid == m.uid;
      var i, k :| 0 <= i < |st.l| && st.l[i] == p && 0 <= k < |st.l| && st.l[k] == m;
      SamePosition(Uids(st.l), i, k);
    }
  }

  /** By UID, a message is visited exactly when the set means it, with "*" for the highest UID given out so
      far, unless that is hidden behind a range that starts beyond it. */
  lemma PicksByUid<S>(st: State<S>, j: Job, s: seq<Range>, i: nat)
    requires Inv(st) && j.byUid && j.l == st.l && i < |j.l| && Canonical(s) && st.uidNext <= MAX_UID
    requires j.ranges == Resolved(s, MaxOf(true, |st.l|, st.uidNext))
    ensures 0 < j.l[i].uid <= st.uidNext - 1
    ensures Picks(j, i) <==> Means(s, st.uidNext - 1, j.l[i].uid) && !Missed(s, st.uidNext - 1, j.l[i].uid)
  {
    assert st.l[i] in st.l;
    assert MaxOf(true, |st.l|, st.uidNext) == st.uidNext - 1;
    hide Found, Means, Missed;
    StaticExact(s, MaxOf(true, |st.l|, st.uidNext), j.l[i].uid);
  }

  lemma CountIs(count: nat, uidNext: Uid)
    requires count <= MAX_UINT32
    ensures MaxOf(false, count, uidNext) == count
  {
  }

  /** By sequence number, a message is visited exactly when its client has a number for it that the set
      means, with "*" for the number of messages in the mailbox. */
  lemma PicksBySeqNum(st: State<SessionTracker>, view: SessionTracker, j: Job, s: seq<Range>, i: nat)
    requires Inv(st) && st.busy.Idle? && view in st.sessions && j.q == st.sessions[view].queue
    requires !j.byUid && j.l == st.l && i < |j.l| <= MAX_UINT32 && Canonical(s)
    requires j.ranges == Resolved(s, MaxOf(false, |st.l|, st.uidNext))
    ensures var n := NumberOf(j, i);
            && n <= MAX_UINT32
            && (Picks(j, i) <==> n != 0 && Means(s, |j.l|, n) && !Missed(s, |j.l|, n))
  {
    EncodeBound(st, view, i + 1);
    CountIs(|st.l|, st.uidNext);
    hide Inv, Means, Missed, Encode, MaxOf;
    if NumberOf(j, i) != 0 {
      hide Found;
      StaticExact(s, |j.l|, NumberOf(j, i));
    }
  }

  lemma StarPicks(st: State<SessionTracker>, view: SessionTracker, j: Job, i: nat)
    requires Inv(st) && st.busy.Idle? && view in st.sessions && j.q == st.sessions[view].queue
    requires !j.byUid && j.l == st.l && i < |j.l| <= MAX_UINT32
    requires j.ranges == Resolved([Range(0, 0)], MaxOf(false, |st.l|, st.uidNext))
    ensures Picks(j, i) <==> NumberOf(j, i) == |j.l|
  {
    var s := [Range(0, 0)];
    PicksBySeqNum(st, view, j, s, i);
    hide Inv, Picks, NumberOf;
    assert s[0] == Range(0, 0);
  }

  /** So "*" is the message that the client knows as its last, number `last`, exactly when that is also
      the number of messages in the mailbox, or no message that is left has either number. */
  lemma StarExactly(st: State<SessionTracker>, view: SessionTracker, j: Job, last: nat)
    requires Inv(st) && st.busy.Idle? && view in st.sessions && j.q == st.sessions[view].queue
    requires !j.byUid && j.l == st.l && |j.l| <= MAX_UINT32
    requires j.ranges == Resolved([Range(0, 0)], MaxOf(false, |st.l|, st.uidNext))
    ensures (forall i: nat | i < |j.l| :: Picks(j, i) <==> NumberOf(j, i) == last)
            <==> last == |j.l| || forall i: nat | i < |j.l| :: NumberOf(j, i) != last && NumberOf(j, i) != |j.l|
  {
    forall i: nat | i < |j.l| ensures Picks(j, i) <==> NumberOf(j, i) == |j.l| { StarPicks(st, view, j, i); }
    hide Inv, Picks, NumberOf;
    if forall i: nat | i < |j.l| :: Picks(j, i) <==> NumberOf(j, i) == last {
      forall i: nat | i < |j.l| && last != |j.l| ensures NumberOf(j, i) != last && NumberOf(j, i) != |j.l| {
        assert Picks(j, i) <==> NumberOf(j, i) == last;
      }
    }
  }

  /** A client that has not heard of the third message yet: "*" names nothing, though it knows two. */
  lemma StarOverlooksLast(j: Job)
    requires !j.byUid && |j.l| == 3 && j.q == [NumMessages(3)] && j.ranges == Resolved([Range(0, 0)], 3)
    ensures NumberOf(j, 0) == 1 && NumberOf(j, 1) == 2 && NumberOf(j, 2) == 0
    ensures !Picks(j, 0) && !Picks(j, 1) && !Picks(j, 2)
  {
    assert j.q[..0] == [] && j.q[1..] == [];
    assert EncodeThrough([], 1) == 1 && EncodeThrough([], 2) == 2;
  }
}
