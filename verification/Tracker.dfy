/** The tracker objects of imapserver/tracker.go. The ghost fields of a session record what
    its client was given; Abs() is the session as the state machine sees it. */
module Tracker {
  import opened Text
  import opened Views
  import opened MailboxRuns

  class SessionTracker {
    var mailbox: MailboxTracker?
    var queue: seq<Update>
    ghost var base: seq<Uid>
    ghost var arrivals: seq<Uid>
    ghost var sent: seq<Update>
    ghost var delivered: seq<Update>

    ghost function Abs(): (s: Session)
      reads this
    {
      Session(base, arrivals, sent, delivered, queue)
    }

    constructor (mailbox: MailboxTracker, ghost list: seq<Uid>)
      ensures this.mailbox == mailbox && Abs() == Session(list, [], [], [], [])
    {
      this.mailbox, queue := mailbox, [];
      base, arrivals, sent, delivered := list, [], [], [];
    }

    method QueueUpdate(update: Update, ghost arrived: seq<Uid>)
      modifies this
      ensures Abs() == Enqueue(old(Abs()), update, arrived) && mailbox == old(mailbox)
    {
      queue := queue + [update];
      arrivals, sent := arrivals + arrived, sent + [update];
    }

    /** Dequeues what may be written to the client now. */
    method Poll(allowExpunge: bool) returns (updates: seq<Update>)
      modifies this
      ensures Abs() == Polled(old(Abs()), allowExpunge) && mailbox == old(mailbox)
      ensures updates == old(queue)[..PollLength(old(queue), allowExpunge)]
    {
      ghost var q := queue;
      if allowExpunge {
        PollTakesPrefix(q, true);
        updates := queue;
        queue := [];
      } else {
        var stopIndex := -1;
        updates := [];
        var i := 0;
        while i < |queue|
          invariant 0 <= i <= |queue| && queue == q && stopIndex == -1
          invariant updates == queue[..i]
          invariant PollLength(q, false) == i + PollLength(q[i..], false)
        {
          if queue[i].Expunge? {
            stopIndex := i;
            break;
          }
          assert q[i..][1..] == q[i + 1..];
          updates := updates + [queue[i]];
          i := i + 1;
        }
        if stopIndex >= 0 {
          queue := queue[stopIndex..];
        } else {
          queue := [];
        }
      }
      delivered := delivered + updates;
    }

    /** From the client's number to the server's; 0 when there is no such message. */
    method DecodeSeqNum(seqNum: nat) returns (r: nat)
      requires mailbox != null
      ensures r == Decode(queue, seqNum, mailbox.numMessages)
    {
      if seqNum == 0 {
        return 0;
      }
      var n := seqNum;
      for i := 0 to |queue|
        invariant n > 0 && DecodeThrough(queue, seqNum) == DecodeThrough(queue[i..], n)
      {
        assert queue[i..][1..] == queue[i + 1..];
        var update := queue[i];
        if update.Expunge? && update.seqNum != 0 {
          if n == update.seqNum {
            return 0;
          } else if n > update.seqNum {
            n := n - 1;
          }
        }
      }
      if n > mailbox.numMessages {
        return 0;
      }
      return n;
    }

    /** From the server's number to the client's; 0 when the client has not heard of it. */
    method EncodeSeqNum(seqNum: nat) returns (r: nat)
      requires mailbox != null
      ensures r == Encode(queue, seqNum, mailbox.numMessages)
    {
      if seqNum == 0 {
        return 0;
      }
      if seqNum > mailbox.numMessages {
        return 0;
      }
      r := seqNum;
      var i := |queue|;
      assert queue[..i] == queue;
      while i > 0
        invariant 0 <= i <= |queue|
        invariant EncodeThrough(queue, seqNum) == EncodeThrough(queue[..i], r)
      {
        i := i - 1;
        assert queue[..i + 1][..i] == queue[..i];
        var update := queue[i];
        if update.NumMessages? && update.n != 0 && r == update.n {
          return 0;
        }
        if update.Expunge? && update.seqNum != 0 && r >= update.seqNum {
          r := r + 1;
        }
      }
    }
  }

  ghost function SourceOf(source: SessionTracker?): (r: Option<SessionTracker>) {
    if source == null then None
    else
      var s: SessionTracker := source;
      Some(s)
  }

  /** The table of sessions when an update went to all but the source. */
  lemma Dispatched(was: map<SessionTracker, Session>, now: map<SessionTracker, Session>, update: Update, arrived: seq<Uid>,
                   source: Option<SessionTracker>)
    requires now.Keys == was.Keys
    requires forall s | s in was :: now[s] == if source == Some(s) then was[s] else Enqueue(was[s], update, arrived)
    ensures now == DispatchAll(was, update, arrived, source)
  {
    hide Enqueue;
  }

  class MailboxTracker {
    var numMessages: nat
    var sessions: set<SessionTracker>

    constructor (numMessages: nat)
      ensures this.numMessages == numMessages && sessions == {}
    {
      this.numMessages, sessions := numMessages, {};
    }

    ghost function Sessions(): (m: map<SessionTracker, Session>)
      reads this, sessions
    {
      map s | s in sessions :: s.Abs()
    }

    /** The table of sessions when one session has moved on by itself. */
    twostate lemma OneMoved(st: SessionTracker)
      requires st in sessions && sessions == old(sessions)
      requires forall s | s in sessions && s != st :: s.Abs() == old(s.Abs())
      ensures Sessions() == old(Sessions())[st := st.Abs()]
    {
    }

    method NewSession(ghost list: seq<Uid>) returns (st: SessionTracker)
      modifies this
      ensures fresh(st) && st.mailbox == this
      ensures st !in old(sessions) && sessions == old(sessions) + {st}
      ensures Sessions() == old(Sessions())[st := Session(list, [], [], [], [])]
      ensures numMessages == old(numMessages)
    {
      st := new SessionTracker(this, list);
      sessions := sessions + {st};
    }

    method Close(st: SessionTracker)
      requires st.mailbox == this
      modifies this, st`mailbox
      ensures sessions == old(sessions) - {st} && numMessages == old(numMessages)
      ensures Sessions() == old(Sessions()) - {st} && st.mailbox == null
    {
      sessions := sessions - {st};
      st.mailbox := null;
    }

    /** Hands the update to every session but the source. The code panics on an update that
        its count of messages refuses. */
    method QueueUpdate(update: Update, source: SessionTracker?, ghost arrived: seq<Uid>)
      requires !Refused(update, numMessages)
      modifies this, sessions
      ensures sessions == old(sessions)
      ensures numMessages == CountAfter(update, old(numMessages))
      ensures forall s | s in sessions :: s.mailbox == old(s.mailbox)
      ensures Sessions() == DispatchAll(old(Sessions()), update, arrived, SourceOf(source))
    {
      ghost var was := Sessions();
      Broadcast(update, source, arrived);
      Dispatched(was, Sessions(), update, arrived, SourceOf(source));
      match update
      case Expunge(_) => numMessages := numMessages - 1;
      case NumMessages(n) => numMessages := n;
      case MailboxFlags(_) =>
      case MessageFlags(_, _, _) =>
    }

    method Broadcast(update: Update, source: SessionTracker?, ghost arrived: seq<Uid>)
      modifies sessions
      ensures forall s | s in sessions :: s.mailbox == old(s.mailbox)
      ensures forall s | s in sessions ::
                s.Abs() == if s == source then old(s.Abs()) else Enqueue(old(s.Abs()), update, arrived)
    {
      var todo := sessions;
      while todo != {}
        invariant todo <= sessions
        invariant forall s | s in sessions :: s.mailbox == old(s.mailbox)
        invariant forall s | s in todo :: s.Abs() == old(s.Abs())
        invariant forall s | s in sessions - todo ::
                    s.Abs() == if s == source then old(s.Abs()) else Enqueue(old(s.Abs()), update, arrived)
        decreases |todo|
      {
        var st :| st in todo;
        todo := todo - {st};
        if source != null && st == source {
          continue;
        }
        st.QueueUpdate(update, arrived);
      }
    }
  }
}
