/** What a client knows of the flags of messages, from the FLAGS updates of imapserver/tracker.go. */
module FlagSync {
  import opened Text
  import opened Views
  import opened MailboxRuns

  /** The flags that the last FLAGS update for a message carries. */
  ghost function LastFlags(us: seq<Update>, uid: Uid): (r: Option<set<string>>)
    decreases |us|
  {
    if us == [] then None
    else
      var u := us[|us| - 1];
      if u.MessageFlags? && u.uid == uid then Some(u.flags) else LastFlags(us[..|us| - 1], uid)
  }

  lemma {:induction false} LastFlagsConcat(a: seq<Update>, b: seq<Update>, uid: Uid)
    ensures LastFlags(a + b, uid) == if LastFlags(b, uid).Some? then LastFlags(b, uid) else LastFlags(a, uid)
    decreases |b|
  {
    if b == [] {
      assert a + b == a;
    } else {
      assert (a + b)[..|a + b| - 1] == a + b[..|b| - 1];
      LastFlagsConcat(a, b[..|b| - 1], uid);
    }
  }

  /** The session stays open and changes no flags itself. */
  ghost predicate OnlyOthers<S(!new)>(steps: seq<Step<S>>, s: S) {
    forall i | 0 <= i < |steps| :: steps[i] != Close(s) && !(steps[i].SetFlags? && steps[i].source == Some(s))
  }

  /** What was dispatched to the session between two states. */
  ghost predicate News<S(!new)>(a: State<S>, b: State<S>, s: S, news: seq<Update>) {
    s in a.sessions && s in b.sessions && b.sessions[s].sent == a.sessions[s].sent + news
  }

  ghost predicate HasFlags(l: seq<Message>, uid: Uid, flags: set<string>) {
    exists i | 0 <= i < |l| :: l[i].uid == uid && l[i].flags == flags
  }

  ghost predicate Present(l: seq<Message>, uid: Uid) { exists i | 0 <= i < |l| :: l[i].uid == uid }

  /** The flags of a message follow from those it had and from the news. */
  ghost predicate Follows(a: seq<Message>, b: seq<Message>, uid: Uid, news: seq<Update>) {
    forall f, g | HasFlags(a, uid, f) && HasFlags(b, uid, g) :: g == LastFlags(news, uid).GetOr(f)
  }

  // ---------------------------------------------------------------- one step

  lemma OneUid<S>(st: State<S>, i: nat, j: nat)
    requires Inv(st) && i < |st.l| && j < |st.l| && st.l[i].uid == st.l[j].uid
    ensures i == j
  {
    SamePosition(Uids(st.l), i, j);
  }

  lemma OneFlags<S>(st: State<S>, uid: Uid, f: set<string>, g: set<string>)
    requires Inv(st) && HasFlags(st.l, uid, f) && HasFlags(st.l, uid, g)
    ensures f == g
  {
    var i :| 0 <= i < |st.l| && st.l[i].uid == uid && st.l[i].flags == f;
    var j :| 0 <= j < |st.l| && st.l[j].uid == uid && st.l[j].flags == g;
    OneUid(st, i, j);
  }

  lemma NothingNew<S(!new)>(a: State<S>, b: State<S>, s: S, uid: Uid, news: seq<Update>)
    requires Inv(a) && (forall m | m in b.l && m.uid < a.uidNext :: m in a.l) && LastFlags(news, uid) == None
    ensures Follows(a.l, b.l, uid, news)
  {
    forall f, g | HasFlags(a.l, uid, f) && HasFlags(b.l, uid, g) ensures g == f {
      var i :| 0 <= i < |a.l| && a.l[i].uid == uid && a.l[i].flags == f;
      var j :| 0 <= j < |b.l| && b.l[j].uid == uid && b.l[j].flags == g;
      assert a.l[i] in a.l && b.l[j] in b.l;
      var k :| 0 <= k < |a.l| && a.l[k] == b.l[j];
      OneUid(a, i, k);
    }
  }

  /** The news of one step. */
  ghost function NewsOf<S(!new)>(st: State<S>, step: Step<S>): (news: seq<Update>)
    requires Enabled(st, step)
  {
    match step
    case Append(_, _, _) => [NumMessages(|st.l| + 1)]
    case SetFlags(k, flags, _) => [MessageFlags(k, st.l[k - 1].uid, flags)]
    case ExpungeNext => if st.l[st.busy.i - 1].uid in st.busy.doomed then [Expunge(st.busy.i)] else []
    case _ => []
  }

  /** Every open session but the source gets the news of every step: an EXISTS for every message that
      arrives, a FLAGS for every change and an EXPUNGE for every victim. */
  lemma StepReaches<S(!new)>(st: State<S>, step: Step<S>, s: S)
    requires Inv(st) && Enabled(st, step) && s in st.sessions && step != Close(s)
    ensures News(st, Apply(st, step), s, if step.SetFlags? && step.source == Some(s) then [] else NewsOf(st, step))
  {
    hide Inv;
    assert st.sessions[s].sent + [] == st.sessions[s].sent;
    match step
    case Append(_, _, _) => IdleCount(st);
    case ExpungeNext => ExpungeInRange(st);
    case _ =>
  }

  /** What a step does to the list: one message more at the end, new flags for one message, or the victims
      gone; otherwise nothing. */
  lemma StepList<S(!new)>(st: State<S>, step: Step<S>)
    requires Inv(st) && Enabled(st, step)
    ensures var r := Apply(st, step);
            match step
            case Append(buf, time, flags) => r.l == st.l + [Message(st.uidNext, buf, time, flags)] && r.uidNext == st.uidNext + 1
            case SetFlags(k, flags, _) =>
              && |r.l| == |st.l| && r.uidNext == st.uidNext
              && forall i | 0 <= i < |st.l| :: r.l[i] == if i == k - 1 then st.l[i].(flags := flags) else st.l[i]
            case EndExpunge => r.uidNext == st.uidNext && forall m :: m in r.l <==> m in st.l && m.uid !in st.busy.doomed
            case _ => r.l == st.l && r.uidNext == st.uidNext
  {
    match step
    case Append(_, _, _) => IdleCount(st); hide Inv;
    case EndExpunge =>
      hide Inv;
      forall m ensures m in Keep(st.l, st.busy.doomed) <==> m in st.l && m.uid !in st.busy.doomed {
        KeepMembers(st.l, st.busy.doomed, m);
      }
    case _ => hide Inv;
  }

  lemma OldMessages<S(!new)>(st: State<S>, step: Step<S>)
    requires Inv(st) && Enabled(st, step) && !step.SetFlags?
    ensures forall m | m in Apply(st, step).l && m.uid < st.uidNext :: m in st.l
  {
    StepList(st, step);
    hide Inv, Apply, Keep;
  }

  lemma FlagsFollow<S(!new)>(st: State<S>, k: nat, flags: set<string>, source: Option<S>, uid: Uid)
    requires Inv(st) && Enabled(st, SetFlags(k, flags, source))
    ensures Follows(st.l, Apply(st, SetFlags(k, flags, source)).l, uid, [MessageFlags(k, st.l[k - 1].uid, flags)])
  {
    var step: Step<S> := SetFlags(k, flags, source);
    StepList(st, step);
    var l, r, news: seq<Update> := st.l, Apply(st, step).l, [MessageFlags(k, st.l[k - 1].uid, flags)];
    hide Apply, Enabled;
    assert news[..0] == [];
    assert LastFlags(news, uid) == if l[k - 1].uid == uid then Some(flags) else None;
    hide LastFlags;
    forall f, g | HasFlags(l, uid, f) && HasFlags(r, uid, g) ensures g == LastFlags(news, uid).GetOr(f) {
      var i :| 0 <= i < |l| && l[i].uid == uid && l[i].flags == f;
      var j :| 0 <= j < |r| && r[j].uid == uid && r[j].flags == g;
      assert l[j].uid == uid;
      OneUid(st, i, j);
      if uid == l[k - 1].uid { OneUid(st, i, k - 1); }
    }
  }

  lemma StepFollows<S(!new)>(st: State<S>, step: Step<S>, s: S, uid: Uid)
    requires Inv(st) && Enabled(st, step)
    ensures Follows(st.l, Apply(st, step).l, uid, NewsOf(st, step))
  {
    hide Apply, Follows, HasFlags;
    if step.SetFlags? {
      FlagsFollow(st, step.seqNum, step.flags, step.source, uid);
    } else {
      OldMessages(st, step);
      NoFlagsNews(st, step, uid);
      hide Inv, NewsOf;
      NothingNew(st, Apply(st, step), s, uid, NewsOf(st, step));
    }
  }

  lemma NoFlagsNews<S(!new)>(st: State<S>, step: Step<S>, uid: Uid)
    requires Enabled(st, step) && !step.SetFlags?
    ensures LastFlags(NewsOf(st, step), uid) == None
  {
    assert NewsOf(st, step) != [] ==> NewsOf(st, step)[..0] == [];
  }

  /** A UID that was given out before and is gone does not come back. */
  lemma StaysGone<S(!new)>(st: State<S>, step: Step<S>, uid: Uid)
    requires Inv(st) && Enabled(st, step)
    ensures st.uidNext <= Apply(st, step).uidNext
    ensures uid < st.uidNext && Present(Apply(st, step).l, uid) ==> Present(st.l, uid)
  {
    StepList(st, step);
    hide Inv, Apply;
    var r := Apply(st, step).l;
    if uid < st.uidNext && Present(r, uid) {
      var j :| 0 <= j < |r| && r[j].uid == uid;
      assert r[j] in r;
      assert !step.SetFlags? ==> r[j] in st.l;
    }
  }

  // ---------------------------------------------------------------- every run

  lemma FollowsTwice(a: seq<Message>, b: seq<Message>, c: seq<Message>, uid: Uid, n1: seq<Update>, n2: seq<Update>)
    requires Follows(a, b, uid, n1) && Follows(b, c, uid, n2) && (Present(a, uid) && Present(c, uid) ==> Present(b, uid))
    ensures Follows(a, c, uid, n1 + n2)
  {
    LastFlagsConcat(n1, n2, uid);
    forall f, g | HasFlags(a, uid, f) && HasFlags(c, uid, g) ensures g == LastFlags(n1 + n2, uid).GetOr(f) {
      assert Present(a, uid) && Present(c, uid);
      var j :| 0 <= j < |b| && b[j].uid == uid;
      assert HasFlags(b, uid, b[j].flags);
    }
  }

  lemma StepNews<S(!new)>(st: State<S>, step: Step<S>, s: S, uid: Uid)
    requires Inv(st) && Enabled(st, step) && s in st.sessions
    requires step != Close(s) && !(step.SetFlags? && step.source == Some(s))
    ensures News(st, Apply(st, step), s, NewsOf(st, step)) && Follows(st.l, Apply(st, step).l, uid, NewsOf(st, step))
    ensures st.uidNext <= Apply(st, step).uidNext
    ensures uid < st.uidNext && Present(Apply(st, step).l, uid) ==> Present(st.l, uid)
  {
    hide Inv, Apply, Follows, News, NewsOf, Present;
    StepReaches(st, step, s);
    StepFollows(st, step, s, uid);
    StaysGone(st, step, uid);
  }

  lemma NewsTwice<S(!new)>(a: State<S>, b: State<S>, c: State<S>, s: S, n1: seq<Update>, n2: seq<Update>)
    requires News(a, b, s, n1) && News(b, c, s, n2)
    ensures News(a, c, s, n1 + n2)
  {
  }

  lemma {:induction false} RunFollows<S(!new)>(st: State<S>, more: seq<Step<S>>, s: S, uid: Uid) returns (news: seq<Update>)
    requires Inv(st) && s in st.sessions && uid < st.uidNext && OnlyOthers(more, s)
    ensures var r := Run(st, more);
            && Inv(r) && News(st, r, s, news) && Follows(st.l, r.l, uid, news)
            && st.uidNext <= r.uidNext && (Present(r.l, uid) ==> Present(st.l, uid))
    decreases |more|
  {
    if more == [] {
      news := [];
      assert st.sessions[s].sent + [] == st.sessions[s].sent;
      forall f, g | HasFlags(st.l, uid, f) && HasFlags(st.l, uid, g) ensures f == g { OneFlags(st, uid, f, g); }
    } else {
      hide Inv, Apply, Enabled, Follows, Present, NewsOf;
      var front, step := more[..|more| - 1], more[|more| - 1];
      news := RunFollows(st, front, s, uid);
      var mid := Run(st, front);
      if Enabled(mid, step) {
        StepKeeps(mid, step);
        assert s in mid.sessions;
        StepNews(mid, step, s, uid);
        var n2 := NewsOf(mid, step);
        FollowsTwice(st.l, mid.l, Apply(mid, step).l, uid, news, n2);
        NewsTwice(st, mid, Apply(mid, step), s, news, n2);
        news := news + n2;
      }
    }
  }

  /** Over every run: a client that knows the flags of a message at some time, and makes no changes itself
      from then on, knows them at any later time from the updates dispatched to it since: the last FLAGS
      for the message carries its flags, and without one they are unchanged. */
  lemma FlagsKnown<S(!new)>(steps: seq<Step<S>>, more: seq<Step<S>>, s: S, i: nat, j: nat)
    requires var st := Run(Init(), steps);
             && s in st.sessions && OnlyOthers(more, s) && i < |st.l| && j < |Run(st, more).l|
             && st.l[i].uid == Run(st, more).l[j].uid
    ensures var st := Run(Init(), steps);
            var later := Run(st, more);
            && s in later.sessions && st.sessions[s].sent <= later.sessions[s].sent
            && var news := later.sessions[s].sent[|st.sessions[s].sent|..];
            later.l[j].flags == LastFlags(news, st.l[i].uid).GetOr(st.l[i].flags)
  {
    RunKeeps(steps);
    var st := Run(Init(), steps);
    var later := Run(st, more);
    assert st.l[i] in st.l;
    var uid := st.l[i].uid;
    assert uid < st.uidNext;
    hide Run, Inv, OnlyOthers, LastFlags;
    var news := RunFollows(st, more, s, uid);
    assert HasFlags(st.l, uid, st.l[i].flags) && HasFlags(later.l, uid, later.l[j].flags);
    assert later.sessions[s].sent[|st.sessions[s].sent|..] == news;
  }

  // ---------------------------------------------------------------- a client's own changes

  /** A client that makes a change is told of it at once and then, by the poll at the end of the command,
      of what is in its queue. So it ends up with the flags of the message exactly when no FLAGS for the
      message is left in the queue, or the last one happens to carry the same flags. */
  lemma OwnChangeKnown<S(!new)>(st: State<S>, k: nat, flags: set<string>, s: S)
    requires Inv(st) && s in st.sessions && Enabled(st, SetFlags(k, flags, Some(s)))
    ensures var r, uid := Apply(st, SetFlags(k, flags, Some(s))), st.l[k - 1].uid;
            && r.l[k - 1].flags == flags && s in r.sessions && r.sessions[s].queue == st.sessions[s].queue
            && (LastFlags(r.sessions[s].queue, uid).GetOr(flags) == r.l[k - 1].flags
                <==> LastFlags(st.sessions[s].queue, uid) == None || LastFlags(st.sessions[s].queue, uid) == Some(flags))
  {
    hide Inv, LastFlags;
  }

  /** A mailbox of one message that two clients have open. */
  const TWO_CLIENTS: seq<Step<nat>> := [Append("", 0, {}), Select(1), Select(2)]

  lemma TwoClientsOpen()
    ensures var st := Run(Init(), TWO_CLIENTS);
            && st.l == [Message(1, "", 0, {})] && st.busy == Idle && st.sessions.Keys == {1, 2} && st.sessions[1].queue == []
  {
    var s0: State<nat> := Init();
    var steps := TWO_CLIENTS;
    assert steps[..3] == steps && steps[..0] == [] && Run(s0, []) == s0;
    hide Run;
    RunPrefix(s0, steps, 0);
    RunPrefix(s0, steps, 1);
    RunPrefix(s0, steps, 2);
  }

  /** The second client sets a flag, and the first, which has not heard of it, clears all flags: it then
      hears of the older change last. */
  lemma StaleFlags()
    ensures var st := Run(Run(Init(), TWO_CLIENTS), [SetFlags(1, {"\\seen"}, Some(2)), SetFlags(1, {}, Some(1))]);
            && |st.l| == 1 && st.l[0].flags == {} && 1 in st.sessions
            && LastFlags(st.sessions[1].queue, st.l[0].uid) == Some({"\\seen"})
  {
    TwoClientsOpen();
    hide Run, TWO_CLIENTS, LastFlags;
    OlderHeardLast(Run(Init(), TWO_CLIENTS), 1, 2, {"\\seen"}, {});
  }

  lemma OlderHeardLast<S(!new)>(st: State<S>, s: S, other: S, older: set<string>, newer: set<string>)
    requires |st.l| == 1 && st.busy.Idle? && s in st.sessions && other in st.sessions && s != other
    requires st.sessions[s].queue == []
    ensures var r := Run(st, [SetFlags(1, older, Some(other)), SetFlags(1, newer, Some(s))]);
            && |r.l| == 1 && r.l[0].flags == newer && s in r.sessions
            && LastFlags(r.sessions[s].queue, r.l[0].uid) == Some(older)
  {
    hide Run, Apply, LastFlags;
    var first: Step<S>, second: Step<S> := SetFlags(1, older, Some(other)), SetFlags(1, newer, Some(s));
    SetFlagsEffect(st, 1, older, Some(other), s);
    var mid := Apply(st, first);
    SetFlagsEffect(mid, 1, newer, Some(s), s);
    RunTwo(st, first, second);
    var u := MessageFlags(1, st.l[0].uid, older);
    LastOfOne(u);
    assert Apply(mid, second).sessions[s].queue == [u] && Apply(mid, second).l[0].uid == u.uid;
  }

  lemma LastOfOne(u: Update)
    requires u.MessageFlags?
    ensures LastFlags([u], u.uid) == Some(u.flags)
  {
  }

  lemma RunTwo<S(!new)>(st: State<S>, first: Step<S>, second: Step<S>)
    requires Enabled(st, first) && Enabled(Apply(st, first), second)
    ensures Run(st, [first, second]) == Apply(Apply(st, first), second)
  {
    var steps := [first, second];
    assert steps[..0] == [] && steps[..2] == steps && Run(st, []) == st;
    hide Run, Apply, Enabled;
    RunPrefix(st, steps, 0);
    RunPrefix(st, steps, 1);
  }

  lemma SetFlagsEffect<S(!new)>(st: State<S>, k: nat, flags: set<string>, source: Option<S>, s: S)
    requires Enabled(st, SetFlags(k, flags, source)) && s in st.sessions
    ensures var r := Apply(st, SetFlags(k, flags, source));
            && r.l == st.l[k - 1 := st.l[k - 1].(flags := flags)] && r.busy == st.busy && r.sessions.Keys == st.sessions.Keys
            && r.sessions[s].queue
               == st.sessions[s].queue + if source == Some(s) then [] else [MessageFlags(k, st.l[k - 1].uid, flags)]
  {
  }

  lemma RunPrefix<S(!new)>(st: State<S>, steps: seq<Step<S>>, n: nat)
    requires n < |steps|
    ensures var r := Run(st, steps[..n]);
            Run(st, steps[..n + 1]) == if Enabled(r, steps[n]) then Apply(r, steps[n]) else r
  {
    hide Apply, Enabled;
    assert steps[..n + 1][..n] == steps[..n];
  }
}
