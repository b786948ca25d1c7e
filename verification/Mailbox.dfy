/** The in-memory mailbox of imapserver/imapmemserver, proved to follow the state machine. */
module Mailbox {
  import opened Text
  import opened Views
  import opened MailboxRuns
  import opened Tracker
  import opened NumSet

  ghost function LowerCased(flags: seq<string>): (r: set<string>) {
    set f | f in flags :: Lower(f)
  }

  /** Flags are kept in lower case. */
  ghost predicate LowerFlags(l: seq<Message>) {
    forall m, f | m in l && f in m.flags :: Lower(f) == f
  }

  datatype StoreOp = StoreSet | StoreAdd | StoreDel

  /** message.store. */
  ghost function Stored(flags: set<string>, op: StoreOp, given: seq<string>): (r: set<string>) {
    match op
    case StoreSet => LowerCased(given)
    case StoreAdd => flags + LowerCased(given)
    case StoreDel => flags - LowerCased(given)
  }

  ghost predicate Given(given: seq<string>, f: string) { exists g | g in given :: EqualFold(f, g) }

  /** Flag by flag, in any case: STORE FLAGS leaves the given ones, +FLAGS adds them to those that were set
      and -FLAGS takes them away. */
  lemma StoredFlag(flags: set<string>, given: seq<string>, f: string)
    ensures Lower(f) in Stored(flags, StoreSet, given) <==> Given(given, f)
    ensures Lower(f) in Stored(flags, StoreAdd, given) <==> Lower(f) in flags || Given(given, f)
    ensures Lower(f) in Stored(flags, StoreDel, given) <==> Lower(f) in flags && !Given(given, f)
  {
    if Given(given, f) {
      var g :| g in given && EqualFold(f, g);
      assert Lower(g) in LowerCased(given);
    }
  }

  method Store(flags: set<string>, op: StoreOp, given: seq<string>) returns (r: set<string>)
    ensures r == Stored(flags, op, given)
  {
    var canonical := CanonicalFlags(given);
    match op
    case StoreSet => r := canonical;
    case StoreAdd => r := flags + canonical;
    case StoreDel => r := flags - canonical;
  }

  method CanonicalFlags(flags: seq<string>) returns (canonical: set<string>)
    ensures canonical == LowerCased(flags)
  {
    canonical := {};
    for i := 0 to |flags|
      invariant canonical == LowerCased(flags[..i])
    {
      assert flags[..i + 1] == flags[..i] + [flags[i]];
      canonical := canonical + {Lower(flags[i])};
    }
    assert flags[..|flags|] == flags;
  }

  /** message.flagList: the flags in some order, each once. */
  method FlagList(flags: set<string>) returns (list: seq<string>)
    ensures forall f :: f in list <==> f in flags
    ensures forall i, j | 0 <= i < j < |list| :: list[i] != list[j]
  {
    list := [];
    var todo := flags;
    while todo != {}
      invariant todo <= flags
      invariant forall f :: f in list <==> f in flags - todo
      invariant forall i, j | 0 <= i < j < |list| :: list[i] != list[j]
      decreases |todo|
    {
      var f :| f in todo;
      assert f !in list;
      list, todo := list + [f], todo - {f};
    }
  }

  class Mailbox {
    const tracker: MailboxTracker
    var l: seq<Message>
    var uidNext: Uid
    ghost var busy: Loop

    ghost function Abs(): (st: State<SessionTracker>)
      reads this, tracker, tracker.sessions
    {
      State(l, uidNext, busy, tracker.numMessages, tracker.Sessions(), false)
    }

    ghost predicate Valid()
      reads this, tracker, tracker.sessions
    {
      && Inv(Abs())
      && LowerFlags(l)
      && (forall s | s in tracker.sessions :: s.mailbox == tracker)
    }

    constructor ()
      ensures Valid() && fresh(tracker) && Abs() == Init()
    {
      tracker := new MailboxTracker(0);
      l, uidNext, busy := [], 1, Idle;
    }

    /** Appends a message and announces it to every session. */
    method AppendBytes(buf: string, time: int, flags: seq<string>) returns (uid: Uid)
      requires Valid() && busy.Idle? && uidNext < MAX_UID
      modifies this, tracker, tracker.sessions
      ensures Valid() && busy.Idle?
      ensures Abs() == Apply(old(Abs()), Append(buf, time, LowerCased(flags)))
      ensures tracker.sessions == old(tracker.sessions)
      ensures uid == old(uidNext)
    {
      hide Inv, Apply, DispatchAll, LowerFlags;
      ghost var before := Abs();
      var canonical := CanonicalFlags(flags);
      AppendKeeps(before, buf, time, canonical);
      AppendShape(before, buf, time, canonical);
      AppendedLower(l, Message(uidNext, buf, time, canonical), flags);
      uid := uidNext;
      l, uidNext := l + [Message(uid, buf, time, canonical)], uidNext + 1;
      tracker.QueueUpdate(NumMessages(|l|), null, [uid]);
      assert Abs() == Apply(before, Append(buf, time, canonical));
    }

    /** Appends a copy of a message of another mailbox. */
    method CopyMsg(msg: Message) returns (uid: Uid)
      requires Valid() && busy.Idle? && uidNext < MAX_UID && LowerFlags([msg])
      modifies this, tracker, tracker.sessions
      ensures Valid() && busy.Idle? && tracker.sessions == old(tracker.sessions)
      ensures uid == old(uidNext) && uidNext == old(uidNext) + 1
      ensures l == old(l) + [msg.(uid := uid)]
    {
      hide Inv;
      IdleCount(Abs());
      var flags := FlagList(msg.flags);
      assert LowerCased(flags) == msg.flags by {
        assert msg in [msg];
        forall f | f in msg.flags ensures f in LowerCased(flags) { assert f in flags && Lower(f) == f; }
      }
      uid := AppendBytes(msg.buf, msg.time, flags);
    }

    /** The body of Store and of a marking Fetch: new flags for message k, announced to every
        session but the source. */
    method StoreMessageFlags(k: nat, op: StoreOp, given: seq<string>, source: SessionTracker?)
      requires Valid() && busy.Idle? && 1 <= k <= |l|
      modifies this, tracker, tracker.sessions
      ensures Valid() && busy.Idle?
      ensures Abs() == Apply(old(Abs()), SetFlags(k, Stored(old(l)[k - 1].flags, op, given), SourceOf(source)))
      ensures tracker.sessions == old(tracker.sessions)
    {
      ghost var before := Abs();
      hide Inv, Apply, DispatchAll, LowerFlags, Stored, LowerCased;
      var flags := Store(l[k - 1].flags, op, given);
      StoredLower(l, k - 1, op, given);
      ghost var src := SourceOf(source);
      SetFlagsKeeps(before, k, flags, src);
      SetFlagsShape(before, k, flags, src);
      l := l[k - 1 := l[k - 1].(flags := flags)];
      tracker.QueueUpdate(MessageFlags(k, l[k - 1].uid, flags), source, []);
      assert Abs() == Apply(before, SetFlags(k, flags, src));
    }

    method NewView() returns (view: SessionTracker)
      requires Valid() && busy.Idle?
      modifies tracker
      ensures Valid() && busy.Idle? && fresh(view)
      ensures view !in old(tracker.sessions) && Abs() == Apply(old(Abs()), Select(view))
    {
      ghost var before := Abs();
      view := tracker.NewSession(Uids(l));
      StepKeeps(before, Select(view));
      assert Abs() == Apply(before, Select(view));
    }

    method PollView(view: SessionTracker, allowExpunge: bool) returns (updates: seq<Update>)
      requires Valid() && view in tracker.sessions
      modifies view
      ensures Valid() && Abs() == Apply(old(Abs()), Poll(view, allowExpunge))
      ensures updates == old(view.queue)[..PollLength(old(view.queue), allowExpunge)]
    {
      ghost var before := Abs();
      StepKeeps(before, Poll(view, allowExpunge));
      updates := view.Poll(allowExpunge);
      tracker.OneMoved(view);
      assert Abs() == Apply(before, Poll(view, allowExpunge));
    }

    method CloseView(view: SessionTracker)
      requires Valid() && view in tracker.sessions
      modifies tracker, view
      ensures Valid() && Abs() == Apply(old(Abs()), Close(view))
    {
      ghost var before := Abs();
      StepKeeps(before, Close(view));
      tracker.Close(view);
      assert Abs() == Apply(before, Close(view));
    }

    /** The first half of Expunge: the deleted messages, among the given UIDs if any. */
    method CollectDeleted(uids: Option<Set>) returns (doomed: set<Uid>)
      requires Valid() && (uids.Some? ==> uids.value.Valid())
      ensures forall u :: u in doomed <==> exists m | m in l :: m.uid == u && IsDeleted(m, uids)
    {
      doomed := {};
      for i := 0 to |l|
        invariant forall u :: u in doomed <==> exists k | 0 <= k < i :: l[k].uid == u && IsDeleted(l[k], uids)
      {
        assert l[i] in l;
        if uids.Some? {
          var contained := uids.value.Contains(l[i].uid);
          if !contained {
            continue;
          }
        }
        if "\\deleted" in l[i].flags {
          doomed := doomed + {l[i].uid};
        }
      }
    }

    /** One turn of the loop of expungeLocked, for the message at index i. */
    method ExpungeAt(i: nat, doomed: set<Uid>) returns (hit: bool)
      requires Valid() && busy == Expunging(i + 1, doomed)
      modifies this`busy, tracker, tracker.sessions
      ensures Valid() && tracker.sessions == old(tracker.sessions)
      ensures Enabled(old(Abs()), ExpungeNext) && Abs() == Apply(old(Abs()), ExpungeNext)
      ensures busy == Expunging(i, doomed)
      ensures hit <==> l[i].uid in doomed
    {
      ghost var before := Abs();
      hide Inv, Apply, DispatchAll, LowerFlags;
      ExpungeShape(before);
      ExpungeNextKeeps(before);
      hit := l[i].uid in doomed;
      busy := Expunging(i, doomed);
      if hit {
        tracker.QueueUpdate(Expunge(i + 1), null, []);
      }
      assert Abs() == Apply(before, ExpungeNext);
    }

    /** The loop of expungeLocked: from the last message to the first, announcing the doomed
        ones and collecting the others backwards. */
    method ExpungeLoop(doomed: set<Uid>) returns (seqNums: seq<nat>, filtered: seq<Message>)
      requires Valid() && busy == Expunging(|l|, doomed)
      modifies this`busy, tracker, tracker.sessions
      ensures Valid() && busy == Expunging(0, doomed) && tracker.sessions == old(tracker.sessions)
      ensures Abs() == Turns(old(Abs()), |l|)
      ensures filtered == Reverse(Keep(l, doomed))
      ensures seqNums == DoomedFrom(l, doomed, 0)
    {
      hide Inv, Apply, Enabled, LowerFlags;
      ghost var start := Abs();
      seqNums, filtered := [], [];
      var i := |l|;
      while i > 0
        invariant 0 <= i <= |l|
        invariant Valid() && busy == Expunging(i, doomed) && tracker.sessions == old(tracker.sessions)
        invariant Abs() == Turns(start, |l| - i)
        invariant filtered == Reverse(Keep(l[i..], doomed))
        invariant seqNums == DoomedFrom(l, doomed, i)
      {
        i := i - 1;
        assert l[i..][1..] == l[i + 1..];
        var hit := ExpungeAt(i, doomed);
        if hit {
          seqNums := seqNums + [i + 1];
        } else {
          filtered := filtered + [l[i]];
        }
      }
      assert l[0..] == l;
    }

    /** Removes the doomed messages, whether or not they are all still there, announcing
        each to every session; the collected survivors are put back in order. */
    method ExpungeLocked(doomed: set<Uid>) returns (seqNums: seq<nat>)
      requires Valid() && busy.Idle?
      modifies this, tracker, tracker.sessions
      ensures Valid() && busy.Idle? && tracker.sessions == old(tracker.sessions)
      ensures Abs() == ExpungeAll(old(Abs()), doomed)
      ensures l == Keep(old(l), doomed) && uidNext == old(uidNext)
      ensures seqNums == DoomedFrom(old(l), doomed, 0)
    {
      hide Inv, Keep, DoomedFrom, Turns;
      ghost var start := Abs();
      BeginEndKeeps(start, BeginExpunge(doomed));
      busy := Expunging(|l|, doomed);
      assert Abs() == Apply(start, BeginExpunge(doomed));
      var filtered;
      seqNums, filtered := ExpungeLoop(doomed);
      BeginEndKeeps(Abs(), EndExpunge);
      ReverseTwice(Keep(l, doomed));
      KeptLower(l, doomed);
      filtered := ReverseInPlace(filtered);
      l, busy := filtered, Idle;
      assert Abs() == ExpungeAll(start, doomed);
    }
  }

  lemma AppendedLower(l: seq<Message>, m: Message, flags: seq<string>)
    requires LowerFlags(l) && m.flags == LowerCased(flags)
    ensures LowerFlags(l + [m])
  {
    forall f | f in m.flags ensures Lower(f) == f {
      var g :| g in flags && f == Lower(g);
    }
  }

  lemma StoredLower(l: seq<Message>, i: nat, op: StoreOp, given: seq<string>)
    requires LowerFlags(l) && i < |l|
    ensures LowerFlags(l[i := l[i].(flags := Stored(l[i].flags, op, given))])
  {
    assert l[i] in l;
    forall f | f in LowerCased(given) ensures Lower(f) == f {
      var g :| g in given && f == Lower(g);
    }
  }

  lemma KeptLower(l: seq<Message>, doomed: set<Uid>)
    requires LowerFlags(l)
    ensures LowerFlags(Keep(l, doomed))
  {
    forall m | m in Keep(l, doomed) ensures m in l { KeepMembers(l, doomed, m); }
  }

  function Reverse(s: seq<Message>): (r: seq<Message>)
    ensures |r| == |s| && forall i | 0 <= i < |s| :: r[i] == s[|s| - 1 - i]
  {
    seq(|s|, i requires 0 <= i < |s| => s[|s| - 1 - i])
  }

  lemma ReverseTwice(s: seq<Message>)
    ensures Reverse(Reverse(s)) == s
  {
  }

  /** Swapping both ends inwards. */
  method ReverseInPlace(s: seq<Message>) returns (r: seq<Message>)
    ensures r == Reverse(s)
  {
    r := s;
    for i := 0 to |s| / 2
      invariant |r| == |s|
      invariant forall k | 0 <= k < i :: r[k] == s[|s| - 1 - k] && r[|s| - 1 - k] == s[k]
      invariant forall k | i <= k < |s| - i :: r[k] == s[k]
    {
      var j := |r| - i - 1;
      r := r[i := r[j]][j := r[i]];
    }
  }

  /** A message is deleted, whatever the case of the flag that STORE was given, once the flag \Deleted was
      added, and it is not after it was taken away. */
  lemma DeletedByStore(m: Message, given: seq<string>)
    requires Given(given, "\\Deleted")
    ensures IsDeleted(m.(flags := Stored(m.flags, StoreAdd, given)), None)
    ensures !IsDeleted(m.(flags := Stored(m.flags, StoreDel, given)), None)
  {
    assert Lower("\\Deleted") == "\\deleted";
    StoredFlag(m.flags, given, "\\Deleted");
    hide Stored, Given, Lower;
  }

  ghost predicate IsDeleted(m: Message, uids: Option<Set>)
    reads if uids.Some? then {uids.value} else {}
  {
    "\\deleted" in m.flags && (uids.Some? ==> m.uid != 0 && InSet(uids.value.ranges, Num(m.uid)))
  }
}
