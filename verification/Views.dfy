/** Per-session mailbox views: what the queues of imapserver/tracker.go mean. */
module Views {
  // A session shows its client a list of messages that lags behind the mailbox. The gap is a
  // queue of updates. An EXISTS update carries only a count, so the messages it announces are
  // kept beside the list as `arrivals`, in the order they were appended.

  import opened Text

  type Uid = nat

  datatype Update =
    | Expunge(seqNum: nat)
    | NumMessages(n: nat)
    | MailboxFlags(flags: set<string>)
    | MessageFlags(seqNum: nat, uid: Uid, flags: set<string>)

  /** The messages a client knows, and the appended ones it has not heard of. */
  datatype View = View(list: seq<Uid>, arrivals: seq<Uid>)

  /** The update makes sense to a client that has this view: an EXPUNGE names a message of
      the list, an EXISTS announces one more message, a FLAGS update names by number the
      same message that it names by UID. */
  ghost predicate CanApply(v: View, u: Update) {
    match u
    case Expunge(k) => 1 <= k <= |v.list|
    case NumMessages(n) => n == |v.list| + 1 && v.arrivals != []
    case MailboxFlags(_) => true
    case MessageFlags(k, uid, _) => 1 <= k <= |v.list| && v.list[k - 1] == uid
  }

  function Without<T>(s: seq<T>, i: nat): (r: seq<T>)
    requires i < |s|
  {
    s[..i] + s[i + 1..]
  }

  ghost function ApplyUpdate(v: View, u: Update): (r: View)
    requires CanApply(v, u)
  {
    match u
    case Expunge(k) => v.(list := Without(v.list, k - 1))
    case NumMessages(_) => View(v.list + [v.arrivals[0]], v.arrivals[1..])
    case MailboxFlags(_) => v
    case MessageFlags(_, _, _) => v
  }

  ghost predicate CanReplay(v: View, q: seq<Update>)
    decreases |q|
  {
    q == [] || (CanApply(v, q[0]) && CanReplay(ApplyUpdate(v, q[0]), q[1..]))
  }

  ghost function Replay(v: View, q: seq<Update>): (r: View)
    requires CanReplay(v, q)
    decreases |q|
  {
    if q == [] then v else Replay(ApplyUpdate(v, q[0]), q[1..])
  }

  lemma {:induction false} ReplayConcat(v: View, a: seq<Update>, b: seq<Update>)
    ensures CanReplay(v, a + b) <==> CanReplay(v, a) && CanReplay(Replay(v, a), b)
    ensures CanReplay(v, a + b) ==> Replay(v, a + b) == Replay(Replay(v, a), b)
    decreases |a|
  {
    if a == [] {
      assert a + b == b;
    } else {
      assert (a + b)[1..] == a[1..] + b;
      if CanApply(v, a[0]) { ReplayConcat(ApplyUpdate(v, a[0]), a[1..], b); }
    }
  }

  lemma ReplaySnoc(v: View, q: seq<Update>, u: Update)
    requires CanReplay(v, q)
    ensures CanReplay(v, q + [u]) <==> CanApply(Replay(v, q), u)
    ensures CanReplay(v, q + [u]) ==> Replay(v, q + [u]) == ApplyUpdate(Replay(v, q), u)
  {
    ReplayConcat(v, q, [u]);
    var w := Replay(v, q);
    if CanApply(w, u) { assert CanReplay(ApplyUpdate(w, u), []); }
  }

  /** Messages that arrive later do not disturb a replay. */
  lemma {:induction false} ReplayMoreArrivals(v: View, q: seq<Update>, more: seq<Uid>)
    requires CanReplay(v, q)
    ensures CanReplay(v.(arrivals := v.arrivals + more), q)
    ensures Replay(v.(arrivals := v.arrivals + more), q)
            == Replay(v, q).(arrivals := Replay(v, q).arrivals + more)
    decreases |q|
  {
    if q != [] {
      var w := ApplyUpdate(v, q[0]);
      ReplayMoreArrivals(w, q[1..], more);
      assert ApplyUpdate(v.(arrivals := v.arrivals + more), q[0]) == w.(arrivals := w.arrivals + more);
    }
  }

  // ---------------------------------------------------------------- sequence numbers

  ghost predicate Ascending(s: seq<Uid>) {
    forall i, j | 0 <= i < j < |s| :: s[i] < s[j]
  }

  /** Everything the client knows or will be told about. */
  ghost function Known(v: View): (s: seq<Uid>) {
    v.list + v.arrivals
  }

  lemma {:induction false} ReplayKnown(v: View, q: seq<Update>)
    requires CanReplay(v, q) && Ascending(Known(v))
    ensures Ascending(Known(Replay(v, q)))
    ensures forall u | u in Known(Replay(v, q)) :: u in Known(v)
    ensures forall u | u in Replay(v, q).arrivals :: u in v.arrivals
    decreases |q|
  {
    if q != [] {
      ApplyKnown(v, q[0]);
      ReplayKnown(ApplyUpdate(v, q[0]), q[1..]);
    }
  }

  /** One update, seen from what the client knows: only an EXPUNGE changes it. */
  lemma ApplyKnown(v: View, u: Update)
    requires CanApply(v, u) && Ascending(Known(v))
    ensures Ascending(Known(ApplyUpdate(v, u)))
    ensures Known(ApplyUpdate(v, u)) == if u.Expunge? then Without(Known(v), u.seqNum - 1) else Known(v)
  {
    var after := Known(ApplyUpdate(v, u));
    if u.Expunge? {
      assert after == Without(Known(v), u.seqNum - 1);
    } else {
      assert after == Known(v);
    }
  }

  /** The loop of DecodeSeqNum, from the client's number towards the server's. */
  function DecodeThrough(q: seq<Update>, n: nat): (m: nat)
    requires n > 0
  {
    if q == [] then n
    else if !q[0].Expunge? || q[0].seqNum == 0 then DecodeThrough(q[1..], n)
    else if n == q[0].seqNum then 0
    else DecodeThrough(q[1..], if n > q[0].seqNum then n - 1 else n)
  }

  function Decode(q: seq<Update>, n: nat, numMessages: nat): (m: nat) {
    if n == 0 then 0
    else
      var m := DecodeThrough(q, n);
      if m > numMessages then 0 else m
  }

  /** The loop of EncodeSeqNum, from the server's number back to the client's. */
  function EncodeThrough(q: seq<Update>, m: nat): (n: nat) {
    if q == [] then m
    else
      var u := q[|q| - 1];
      if u.NumMessages? && u.n != 0 && m == u.n then 0
      else EncodeThrough(q[..|q| - 1], if u.Expunge? && u.seqNum != 0 && m >= u.seqNum then m + 1 else m)
  }

  function Encode(q: seq<Update>, m: nat, numMessages: nat): (n: nat) {
    if m == 0 || m > numMessages then 0 else EncodeThrough(q, m)
  }

  lemma {:induction false} DecodeThroughExact(v: View, q: seq<Update>, n: nat)
    requires CanReplay(v, q) && Ascending(Known(v)) && n > 0
    ensures var m, after := DecodeThrough(q, n), Known(Replay(v, q));
            if n > |Known(v)| then m > |after|
            else if m == 0 then Known(v)[n - 1] !in after
            else m <= |after| && after[m - 1] == Known(v)[n - 1]
    decreases |q|
  {
    if q != [] {
      var w := ApplyUpdate(v, q[0]);
      ApplyKnown(v, q[0]);
      if q[0].Expunge? && q[0].seqNum == n {
        ReplayKnown(w, q[1..]);
      } else {
        DecodeThroughExact(w, q[1..], if q[0].Expunge? && n > q[0].seqNum then n - 1 else n);
      }
    }
  }

  /** DecodeSeqNum for every client number, when the queue leads to the mailbox list:
      it follows the message through the queue and gives 0 when the message is gone. A
      number just past the client's list follows a message not yet announced. */
  lemma DecodeExact(v: View, q: seq<Update>, list: seq<Uid>, n: nat)
    requires CanReplay(v, q) && Replay(v, q) == View(list, []) && Ascending(Known(v))
    ensures var m := Decode(q, n, |list|);
            && m <= |list|
            && (m == 0 <==> n == 0 || n > |Known(v)| || Known(v)[n - 1] !in list)
            && (m != 0 ==> list[m - 1] == Known(v)[n - 1])
  {
    if n > 0 {
      DecodeThroughExact(v, q, n);
      assert Known(Replay(v, q)) == list;
    }
  }

  lemma EncodeStep(q: seq<Update>, last: Update, m: nat)
    ensures EncodeThrough(q + [last], m) ==
      if last.NumMessages? && last.n != 0 && m == last.n then 0
      else EncodeThrough(q, if last.Expunge? && last.seqNum != 0 && m >= last.seqNum then m + 1 else m)
  {
    assert (q + [last])[..|q|] == q;
  }

  /** Where the message at m stood before the last update of a queue. */
  lemma BeforeLast(w: View, last: Update, m: nat)
    requires CanApply(w, last) && 1 <= m <= |ApplyUpdate(w, last).list|
    ensures var u := ApplyUpdate(w, last).list[m - 1];
            match last
            case Expunge(k) => k > 0 && (if m >= k then m < |w.list| && w.list[m] == u else m <= |w.list| && w.list[m - 1] == u)
            case NumMessages(n) => n > 0 && (if m == n then u in w.arrivals else m <= |w.list| && w.list[m - 1] == u)
            case _ => m <= |w.list| && w.list[m - 1] == u
  {
  }

  lemma {:induction false} EncodeThroughExact(v: View, q: seq<Update>, m: nat)
    requires CanReplay(v, q) && Ascending(Known(v)) && 1 <= m <= |Replay(v, q).list|
    ensures var n, u := EncodeThrough(q, m), Replay(v, q).list[m - 1];
            if n == 0 then u in v.arrivals else n <= |v.list| && v.list[n - 1] == u
    decreases |q|
  {
    if q != [] {
      var front, last := q[..|q| - 1], q[|q| - 1];
      assert q == front + [last];
      ReplayConcat(v, front, [last]);
      ReplaySnoc(v, front, last);
      ReplayKnown(v, front);
      BeforeLast(Replay(v, front), last, m);
      EncodeStep(front, last, m);
      hide CanReplay, Replay, ApplyUpdate, CanApply, EncodeThrough, Ascending, Known;
      match last
      case Expunge(k) => EncodeThroughExact(v, front, if m >= k then m + 1 else m);
      case NumMessages(n) => if m != n { EncodeThroughExact(v, front, m); }
      case MailboxFlags(_) => EncodeThroughExact(v, front, m);
      case MessageFlags(_, _, _) => EncodeThroughExact(v, front, m);
    }
  }

  /** EncodeSeqNum for every server number: the position of the same message in the
      client's list, and 0 exactly when the client does not know the message. */
  lemma EncodeExact(v: View, q: seq<Update>, list: seq<Uid>, m: nat)
    requires CanReplay(v, q) && Replay(v, q) == View(list, []) && Ascending(Known(v))
    ensures var n := Encode(q, m, |list|);
            && n <= |v.list|
            && (n == 0 <==> m == 0 || m > |list| || list[m - 1] !in v.list)
            && (n != 0 ==> v.list[n - 1] == list[m - 1])
  {
    if 1 <= m <= |list| {
      EncodeThroughExact(v, q, m);
      var u := list[m - 1];
      if u in v.list && u in v.arrivals {
        var i, j :| 0 <= i < |v.list| && v.list[i] == u && 0 <= j < |v.arrivals| && v.arrivals[j] == u;
        assert Known(v)[i] < Known(v)[|v.list| + j];
      }
    }
  }

  /** Between the client's list and the mailbox the two translations undo each other. */
  lemma SeqNumsInverse(v: View, q: seq<Update>, list: seq<Uid>, n: nat, m: nat)
    requires CanReplay(v, q) && Replay(v, q) == View(list, []) && Ascending(Known(v))
    requires 1 <= n <= |v.list| && 1 <= m <= |list|
    ensures Decode(q, n, |list|) == m <==> Encode(q, m, |list|) == n
  {
    DecodeExact(v, q, list, n);
    EncodeExact(v, q, list, m);
    ReplayKnown(v, q);
    assert Known(Replay(v, q)) == list;
    var d, e := Decode(q, n, |list|), Encode(q, m, |list|);
    assert Known(v)[n - 1] == v.list[n - 1];
    if d == m && e != 0 { SamePosition(Known(v), n - 1, e - 1); }
    if e == n && d != 0 { SamePosition(list, m - 1, d - 1); }
  }

  lemma SamePosition(s: seq<Uid>, i: nat, j: nat)
    requires Ascending(s) && i < |s| && j < |s| && s[i] == s[j]
    ensures i == j
  {
  }

  /** Both translations name the message that is meant, and undo each other. */
  lemma SeqNumsExact(v: View, q: seq<Update>, list: seq<Uid>, n: nat, m: nat)
    requires CanReplay(v, q) && Replay(v, q) == View(list, []) && Ascending(Known(v))
    ensures var e, d := Encode(q, m, |list|), Decode(q, n, |list|);
            && (1 <= m <= |list| ==> (e == 0 <==> list[m - 1] !in v.list) && (e != 0 ==> e <= |v.list| && v.list[e - 1] == list[m - 1]))
            && (1 <= n <= |v.list| ==> (d == 0 <==> v.list[n - 1] !in list) && (d != 0 ==> d <= |list| && list[d - 1] == v.list[n - 1]))
            && (1 <= m <= |list| && 1 <= n <= |v.list| ==> (e == n <==> d == m))
  {
    hide Decode, Encode, CanReplay, Replay, Ascending;
    EncodeExact(v, q, list, m);
    DecodeExact(v, q, list, n);
    if 1 <= m <= |list| && 1 <= n <= |v.list| { SeqNumsInverse(v, q, list, n, m); }
  }

  lemma InOrder(s: seq<Uid>, i: nat, j: nat)
    requires Ascending(s) && i < |s| && j < |s| && s[i] < s[j]
    ensures i < j
  {
  }

  /** Both translations are strictly increasing where they are defined. */
  lemma SeqNumsMonotone(v: View, q: seq<Update>, list: seq<Uid>, x: nat, y: nat)
    requires CanReplay(v, q) && Replay(v, q) == View(list, []) && Ascending(Known(v))
    requires x < y
    ensures Decode(q, x, |list|) != 0 && Decode(q, y, |list|) != 0
            ==> Decode(q, x, |list|) < Decode(q, y, |list|)
    ensures Encode(q, x, |list|) != 0 && Encode(q, y, |list|) != 0
            ==> Encode(q, x, |list|) < Encode(q, y, |list|)
  {
    hide Decode, Encode, CanReplay, Replay;
    DecodeExact(v, q, list, x);
    DecodeExact(v, q, list, y);
    EncodeExact(v, q, list, x);
    EncodeExact(v, q, list, y);
    ReplayKnown(v, q);
    assert Known(Replay(v, q)) == list;
    assert Ascending(v.list) by { assert forall i | 0 <= i < |v.list| :: v.list[i] == Known(v)[i]; }
    var d1, d2, e1, e2 := Decode(q, x, |list|), Decode(q, y, |list|), Encode(q, x, |list|), Encode(q, y, |list|);
    if d1 != 0 && d2 != 0 { InOrder(list, d1 - 1, d2 - 1); }
    if e1 != 0 && e2 != 0 { InOrder(v.list, e1 - 1, e2 - 1); }
  }
}
