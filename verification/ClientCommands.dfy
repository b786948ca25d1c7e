/** The client's table of pipelined commands (imapclient/client.go), as a state machine. */
module ClientCommands {
  // Goroutines share the table of pending commands, the queue of continuation requests and the
  // channels. Each goroutine stands at some point of the code, and a step takes one of them past
  // one critical section or one channel operation. Nothing but the point it has reached lets a
  // goroutine send: a second send or a second close is possible as far as the steps go, and
  // sets `panicked`.

  import opened Text

  type CmdId = nat
  type ReqId = nat
  type Tid = nat

  // ---------------------------------------------------------------- what goroutines share

  /** The done channel of a command. */
  datatype Chan = Chan(sends: nat, closed: bool)

  const FRESH: Chan := Chan(0, false)
  const OVER: Chan := Chan(1, true)

  /** The channel of a continuation request: open, or closed by Done or by Cancel. */
  datatype ReqEnd = Open | Done | Cancelled

  datatype ContReq = ContReq(req: ReqId, owner: CmdId)

  datatype Shared = Shared(
    cmdTag: nat, tags: map<CmdId, string>, pending: seq<CmdId>, done: map<CmdId, Chan>,
    contReqs: seq<ContReq>, ends: seq<ReqEnd>, panicked: bool)

  function TagText(n: nat): (s: string) { "T" + Digits(n) }

  /** Index of the pending command that bears the tag, or the length. */
  function FindTag(pending: seq<CmdId>, tags: map<CmdId, string>, tag: string): (i: nat)
    ensures i <= |pending|
    ensures forall k | 0 <= k < i :: !(pending[k] in tags && tags[pending[k]] == tag)
    ensures i < |pending| ==> pending[i] in tags && tags[pending[i]] == tag
  {
    if pending == [] || (pending[0] in tags && tags[pending[0]] == tag) then 0
    else 1 + FindTag(pending[1..], tags, tag)
  }

  function Cut<T>(s: seq<T>, i: nat): (r: seq<T>)
    requires i < |s|
  {
    s[..i] + s[i + 1..]
  }

  /** The requests of other commands, in order. */
  function Others(rs: seq<ContReq>, id: CmdId): (r: seq<ContReq>) {
    if rs == [] then []
    else Others(rs[..|rs| - 1], id) + if rs[|rs| - 1].owner != id then [rs[|rs| - 1]] else []
  }

  /** beginCommand: a new command with the next tag and a fresh channel. */
  function Begin(sh: Shared, c: CmdId): (r: Shared) {
    sh.(cmdTag := sh.cmdTag + 1, tags := sh.tags[c := TagText(sh.cmdTag + 1)],
        pending := sh.pending + [c], done := sh.done[c := FRESH])
  }

  /** deletePendingCmdByTag. */
  function TakeTagged(sh: Shared, tag: string): (r: Shared) {
    var i := FindTag(sh.pending, sh.tags, tag);
    if i == |sh.pending| then sh else sh.(pending := Cut(sh.pending, i))
  }

  /** done <- err: a send on a closed channel panics. */
  function Send(sh: Shared, c: CmdId): (r: Shared) {
    if c !in sh.done || sh.done[c].closed then sh.(panicked := true)
    else sh.(done := sh.done[c := sh.done[c].(sends := sh.done[c].sends + 1)])
  }

  /** close(done): closing a closed channel panics. */
  function CloseDone(sh: Shared, c: CmdId): (r: Shared) {
    if c !in sh.done || sh.done[c].closed then sh.(panicked := true)
    else sh.(done := sh.done[c := sh.done[c].(closed := true)])
  }

  /** Closes the channel of a request, one way or the other. */
  function EndReq(sh: Shared, r: ReqId, how: ReqEnd): (q: Shared) {
    if r >= |sh.ends| || sh.ends[r] != Open then sh.(panicked := true) else sh.(ends := sh.ends[r := how])
  }

  /** The loop of completeCommand over the requests. */
  function CancelEach(sh: Shared, rs: seq<ContReq>, c: CmdId): (q: Shared) {
    if rs == [] then sh
    else
      var q, last := CancelEach(sh, rs[..|rs| - 1], c), rs[|rs| - 1];
      if last.owner == c then EndReq(q, last.req, Cancelled) else q
  }

  function CancelOwned(sh: Shared, c: CmdId): (q: Shared) {
    CancelEach(sh, sh.contReqs, c).(contReqs := Others(sh.contReqs, c))
  }

  /** The whole of completeCommand. */
  function Complete(sh: Shared, c: CmdId): (q: Shared) { CancelOwned(CloseDone(Send(sh, c), c), c) }

  function CompleteAll(sh: Shared, cs: seq<CmdId>): (q: Shared) {
    if cs == [] then sh else Complete(CompleteAll(sh, cs[..|cs| - 1]), cs[|cs| - 1])
  }

  function Register(sh: Shared, owner: CmdId): (q: Shared) {
    sh.(contReqs := sh.contReqs + [ContReq(|sh.ends|, owner)], ends := sh.ends + [Open])
  }

  // ---------------------------------------------------------------- where a goroutine stands

  /** What follows a call of completeCommand. */
  datatype After =
    | Return                     // readResponseTagged returns nil
    | Leave                      // the deferred function ends
    | Loop(rest: seq<CmdId>)     // closeWithError goes on with its loop

  datatype Point =
    | Ready
    | Parsing(cmd: CmdId)                    // readResponseTagged has taken the command
    | Returning(cmd: CmdId, err: bool)       // its deferred function is about to look at err
    | Sending(cmd: CmdId, after: After)      // completeCommand, before the send
    | Closing(cmd: CmdId, after: After)      // before the close
    | Cancelling(cmd: CmdId, after: After)   // before it locks and filters the requests
    | Looping(rest: seq<CmdId>)              // closeWithError has taken the table
    | Finishing(req: ReqId)                  // readContinueReq, before Done

  datatype State = State(sh: Shared, threads: map<Tid, Point>)

  function PointOf(st: State, t: Tid): (p: Point) { if t in st.threads then st.threads[t] else Ready }

  datatype Step =
    | DoBegin(c: CmdId)
    | DoRegister(owner: CmdId)
    | DoTakeTagged(t: Tid, tag: string)
    | DoFail(t: Tid)        // any error return of readResponseTagged
    | DoSucceed(t: Tid)     // the line was read
    | DoDeferred(t: Tid)
    | DoTakeAll(t: Tid)
    | DoLoop(t: Tid)
    | DoSend(t: Tid)
    | DoClose(t: Tid)
    | DoCancel(t: Tid)
    | DoPop(t: Tid)
    | DoFinish(t: Tid)

  predicate Enabled(st: State, step: Step) {
    match step
    case DoBegin(c) => c !in st.sh.tags
    case DoRegister(_) => true
    case DoTakeTagged(t, _) => PointOf(st, t).Ready?
    case DoFail(t) => PointOf(st, t).Parsing?
    case DoSucceed(t) => PointOf(st, t).Parsing?
    case DoDeferred(t) => PointOf(st, t).Returning?
    case DoTakeAll(t) => PointOf(st, t).Ready?
    case DoLoop(t) => PointOf(st, t).Looping?
    case DoSend(t) => PointOf(st, t).Sending?
    case DoClose(t) => PointOf(st, t).Closing?
    case DoCancel(t) => PointOf(st, t).Cancelling?
    case DoPop(t) => PointOf(st, t).Ready?
    case DoFinish(t) => PointOf(st, t).Finishing?
  }

  function Resume(c: CmdId, after: After): (p: Point) {
    match after
    case Return => Returning(c, false)
    case Leave => Ready
    case Loop(rest) => Looping(rest)
  }

  function Moved(st: State, t: Tid, sh: Shared, p: Point): (r: State) { State(sh, st.threads[t := p]) }

  function Apply(st: State, step: Step): (r: State)
    requires Enabled(st, step)
  {
    var sh := st.sh;
    match step
    case DoBegin(c) => st.(sh := Begin(sh, c))
    case DoRegister(owner) => st.(sh := Register(sh, owner))
    case DoTakeTagged(t, tag) =>
      var i := FindTag(sh.pending, sh.tags, tag);
      Moved(st, t, TakeTagged(sh, tag), if i == |sh.pending| then Ready else Parsing(sh.pending[i]))
    case DoFail(t) => Moved(st, t, sh, Returning(PointOf(st, t).cmd, true))
    case DoSucceed(t) => Moved(st, t, sh, Sending(PointOf(st, t).cmd, Return))
    case DoDeferred(t) =>
      var p := PointOf(st, t);
      Moved(st, t, sh, if p.err then Sending(p.cmd, Leave) else Ready)
    case DoTakeAll(t) => Moved(st, t, sh.(pending := []), Looping(sh.pending))
    case DoLoop(t) =>
      var rest := PointOf(st, t).rest;
      Moved(st, t, sh, if rest == [] then Ready else Sending(rest[0], Loop(rest[1..])))
    case DoSend(t) => Moved(st, t, Send(sh, PointOf(st, t).cmd), Closing(PointOf(st, t).cmd, PointOf(st, t).after))
    case DoClose(t) => Moved(st, t, CloseDone(sh, PointOf(st, t).cmd), Cancelling(PointOf(st, t).cmd, PointOf(st, t).after))
    case DoCancel(t) => Moved(st, t, CancelOwned(sh, PointOf(st, t).cmd), Resume(PointOf(st, t).cmd, PointOf(st, t).after))
    case DoPop(t) =>
      if sh.contReqs == [] then st
      else Moved(st, t, sh.(contReqs := sh.contReqs[1..]), Finishing(sh.contReqs[0].req))
    case DoFinish(t) => Moved(st, t, EndReq(sh, PointOf(st, t).req, Done), Ready)
  }

  function Init(): (st: State) { State(Shared(0, map[], [], map[], [], [], false), map[]) }

  /** A run; a step that is not enabled does nothing. */
  function Run(st: State, steps: seq<Step>): (r: State)
    decreases |steps|
  {
    if steps == [] then st
    else
      var last := Run(st, steps[..|steps| - 1]);
      if Enabled(last, steps[|steps| - 1]) then Apply(last, steps[|steps| - 1]) else last
  }

  // ---------------------------------------------------------------- the invariant

  /** Where a command is: in the table, with a goroutine that has still to send, with one that has sent
      and has still to close, or completed. */
  datatype Place = Table | Held(t: Tid) | Shutting(t: Tid) | Completed

  /** Where a request is. */
  datatype ReqPlace = Queued | Popped(t: Tid) | Ended

  /** The commands that a goroutine at this point has still to send to. */
  function Todo(p: Point): (cs: seq<CmdId>) {
    match p
    case Parsing(c) => [c]
    case Returning(c, err) => if err then [c] else []
    case Sending(c, a) => [c] + Rest(a)
    case Closing(_, a) => Rest(a)
    case Cancelling(_, a) => Rest(a)
    case Looping(rest) => rest
    case _ => []
  }

  function Rest(a: After): (cs: seq<CmdId>) { if a.Loop? then a.rest else [] }

  ghost predicate Distinct<T(!new)>(s: seq<T>) { forall i, j | 0 <= i < j < |s| :: s[i] != s[j] }

  ghost predicate TagsOk(sh: Shared) {
    && (forall a, b | a in sh.tags && b in sh.tags && a != b :: sh.tags[a] != sh.tags[b])
    && (forall a | a in sh.tags :: exists k | 1 <= k <= sh.cmdTag :: sh.tags[a] == TagText(k))
  }

  function ChanAt(p: Place): (ch: Chan) {
    match p
    case Table => FRESH
    case Held(_) => FRESH
    case Shutting(_) => Chan(1, false)
    case Completed => OVER
  }

  /** The table holds exactly the commands placed there, each once. */
  ghost predicate TableOk(sh: Shared, h: map<CmdId, Place>) {
    && Distinct(sh.pending)
    && (forall c | c in sh.pending :: c in h && h[c] == Table)
    && (forall c | c in h && h[c] == Table :: c in sh.pending)
  }

  /** Goroutine t holds exactly the commands placed with it, each once. */
  ghost predicate PointOk(t: Tid, p: Point, h: map<CmdId, Place>) {
    && Distinct(Todo(p))
    && (forall c | c in Todo(p) :: c in h && h[c] == Held(t))
    && (forall c | c in h && h[c] == Held(t) :: c in Todo(p))
    && (p.Closing? ==> p.cmd in h && h[p.cmd] == Shutting(t))
    && (forall c | c in h && h[c] == Shutting(t) :: p.Closing? && p.cmd == c)
  }

  /** Every channel is as its place says. */
  ghost predicate ChansOk(sh: Shared, h: map<CmdId, Place>) {
    && h.Keys == sh.done.Keys == sh.tags.Keys
    && (forall c | c in h :: sh.done[c] == ChanAt(h[c]))
  }

  ghost predicate CmdInv(st: State, h: map<CmdId, Place>) {
    && TagsOk(st.sh) && ChansOk(st.sh, h) && TableOk(st.sh, h)
    && (forall t: Tid :: PointOk(t, PointOf(st, t), h))
  }

  ghost predicate QueueOk(rs: seq<ContReq>, g: seq<ReqPlace>) {
    && (forall i, j | 0 <= i < j < |rs| :: rs[i].req != rs[j].req)
    && (forall i | 0 <= i < |rs| :: rs[i].req < |g| && g[rs[i].req] == Queued)
    && (forall r | 0 <= r < |g| && g[r] == Queued :: exists i | 0 <= i < |rs| :: rs[i].req == r)
  }

  ghost predicate PoppedOk(t: Tid, p: Point, g: seq<ReqPlace>) {
    && (p.Finishing? ==> p.req < |g| && g[p.req] == Popped(t))
    && (forall r | 0 <= r < |g| && g[r] == Popped(t) :: p.Finishing? && p.req == r)
  }

  /** A request's channel is open as long as somebody has still to close it. */
  ghost predicate EndsOk(ends: seq<ReqEnd>, g: seq<ReqPlace>) {
    |g| == |ends| && forall r | 0 <= r < |g| :: ends[r] == Open <==> g[r] != Ended
  }

  ghost predicate ReqInv(st: State, g: seq<ReqPlace>) {
    && QueueOk(st.sh.contReqs, g) && EndsOk(st.sh.ends, g)
    && (forall t: Tid :: PoppedOk(t, PointOf(st, t), g))
  }

  lemma TagTextInjective(a: nat, b: nat)
    requires TagText(a) == TagText(b)
    ensures a == b
  {
    assert TagText(a)[1..] == Digits(a) && TagText(b)[1..] == Digits(b);
    ValueOfDigits(a);
    ValueOfDigits(b);
  }

  lemma BeginTags(sh: Shared, c: CmdId)
    requires TagsOk(sh) && c !in sh.tags
    ensures TagsOk(Begin(sh, c))
  {
    forall a | a in sh.tags ensures sh.tags[a] != TagText(sh.cmdTag + 1) {
      var k :| 1 <= k <= sh.cmdTag && sh.tags[a] == TagText(k);
      if TagText(k) == TagText(sh.cmdTag + 1) { TagTextInjective(k, sh.cmdTag + 1); }
    }
  }

  // ---------------------------------------------------------------- commands

  /** The places differ at most in what is in the table, with goroutine t or completed. */
  ghost predicate SameElsewhere(t: Tid, h: map<CmdId, Place>, h2: map<CmdId, Place>) {
    forall u: Tid, c: CmdId | u != t ::
      && ((c in h && h[c] == Held(u)) <==> (c in h2 && h2[c] == Held(u)))
      && ((c in h && h[c] == Shutting(u)) <==> (c in h2 && h2[c] == Shutting(u)))
  }

  lemma OtherPoint(t: Tid, u: Tid, p: Point, h: map<CmdId, Place>, h2: map<CmdId, Place>)
    requires u != t && SameElsewhere(t, h, h2) && PointOk(u, p, h)
    ensures PointOk(u, p, h2)
  {
    hide Todo;
    forall c | c in Todo(p) ensures c in h2 && h2[c] == Held(u) { assert c in h && h[c] == Held(u); }
  }

  lemma SameTags(a: Shared, b: Shared)
    requires TagsOk(a) && b.tags == a.tags && b.cmdTag == a.cmdTag
    ensures TagsOk(b)
  {
  }

  lemma Parts(st: State, h: map<CmdId, Place>, t: Tid)
    requires CmdInv(st, h)
    ensures TagsOk(st.sh) && ChansOk(st.sh, h) && TableOk(st.sh, h) && PointOk(t, PointOf(st, t), h)
  {
  }

  /** One goroutine moved on: the invariant is a matter of its own point, the table and the channels. */
  lemma OneMoved(st: State, t: Tid, sh: Shared, p: Point, h: map<CmdId, Place>, h2: map<CmdId, Place>)
    requires CmdInv(st, h) && SameElsewhere(t, h, h2) && PointOk(t, p, h2)
    requires sh.tags == st.sh.tags && sh.cmdTag == st.sh.cmdTag && ChansOk(sh, h2) && TableOk(sh, h2)
    ensures CmdInv(Moved(st, t, sh, p), h2)
  {
    hide TagsOk, PointOk, ChansOk, TableOk, SameElsewhere;
    var r := Moved(st, t, sh, p);
    SameTags(st.sh, sh);
    forall u: Tid ensures PointOk(u, PointOf(r, u), h2) {
      if u != t { OtherPoint(t, u, PointOf(st, u), h, h2); }
    }
  }

  lemma BeginPoint(t: Tid, p: Point, c: CmdId, h: map<CmdId, Place>)
    requires PointOk(t, p, h) && c !in h
    ensures PointOk(t, p, h[c := Table])
  {
    hide Todo;
  }

  lemma BeginTable(sh: Shared, c: CmdId, h: map<CmdId, Place>)
    requires TableOk(sh, h) && ChansOk(sh, h) && c !in sh.tags
    ensures TableOk(Begin(sh, c), h[c := Table]) && ChansOk(Begin(sh, c), h[c := Table])
  {
    assert c !in h && c !in sh.pending;
  }

  lemma BeginKeeps(st: State, c: CmdId, h: map<CmdId, Place>)
    requires CmdInv(st, h) && c !in st.sh.tags
    ensures CmdInv(st.(sh := Begin(st.sh, c)), h[c := Table])
  {
    BeginTags(st.sh, c);
    BeginTable(st.sh, c, h);
    assert c !in h;
    hide TagsOk, PointOk, ChansOk, TableOk, Begin;
    var r := st.(sh := Begin(st.sh, c));
    forall t: Tid ensures PointOk(t, PointOf(r, t), h[c := Table]) {
      BeginPoint(t, PointOf(st, t), c, h);
    }
  }

  // one command changes its place

  lemma PlaceElsewhere(t: Tid, h: map<CmdId, Place>, c: CmdId, pl: Place)
    requires c in h && (h[c] == Table || h[c] == Held(t) || h[c] == Shutting(t))
    requires pl == Held(t) || pl == Shutting(t) || pl == Completed
    ensures SameElsewhere(t, h, h[c := pl])
  {
  }

  lemma PlaceChan(sh: Shared, h: map<CmdId, Place>, c: CmdId, pl: Place)
    requires ChansOk(sh, h) && c in h
    ensures ChansOk(sh.(done := sh.done[c := ChanAt(pl)]), h[c := pl])
  {
  }

  lemma ChanOf(sh: Shared, h: map<CmdId, Place>, c: CmdId)
    requires ChansOk(sh, h) && c in h
    ensures c in sh.done && sh.done[c] == ChanAt(h[c])
  {
  }

  lemma PlaceTable(sh: Shared, sh2: Shared, h: map<CmdId, Place>, c: CmdId, pl: Place)
    requires TableOk(sh, h) && c in h && h[c] != Table && pl != Table && sh2.pending == sh.pending
    ensures TableOk(sh2, h[c := pl])
  {
  }

  /** Steps that only move a goroutine along, with the same commands to send to. */
  lemma MoveKeeps(st: State, t: Tid, sh: Shared, p: Point, h: map<CmdId, Place>)
    requires CmdInv(st, h) && Todo(p) == Todo(PointOf(st, t)) && !p.Closing? && !PointOf(st, t).Closing?
    requires sh.tags == st.sh.tags && sh.cmdTag == st.sh.cmdTag && sh.done == st.sh.done && sh.pending == st.sh.pending
    ensures CmdInv(Moved(st, t, sh, p), h)
  {
    Parts(st, h, t);
    hide CmdInv, TagsOk;
    assert SameElsewhere(t, h, h);
    OneMoved(st, t, sh, p, h, h);
  }

  lemma CutPending(sh: Shared, i: nat, t: Tid, h: map<CmdId, Place>)
    requires TableOk(sh, h) && i < |sh.pending|
    ensures sh.pending[i] in h && h[sh.pending[i]] == Table
    ensures TableOk(sh.(pending := Cut(sh.pending, i)), h[sh.pending[i] := Held(t)])
  {
    var c, rest := sh.pending[i], Cut(sh.pending, i);
    assert c in sh.pending;
    assert forall k | 0 <= k < |rest| :: rest[k] == sh.pending[if k < i then k else k + 1];
    forall d | d in h && h[d] == Table && d != c ensures d in rest {
      var k :| 0 <= k < |sh.pending| && sh.pending[k] == d;
      assert rest[if k < i then k else k - 1] == d;
    }
  }

  lemma TakenPoint(t: Tid, c: CmdId, h: map<CmdId, Place>)
    requires PointOk(t, Ready, h) && c in h && h[c] == Table
    ensures PointOk(t, Parsing(c), h[c := Held(t)])
  {
  }

  lemma TakeKeeps(st: State, t: Tid, tag: string, h: map<CmdId, Place>) returns (h2: map<CmdId, Place>)
    requires Enabled(st, DoTakeTagged(t, tag)) && CmdInv(st, h)
    ensures CmdInv(Apply(st, DoTakeTagged(t, tag)), h2) && Progress(h, h2)
  {
    hide CmdInv, TagsOk, TableOk, ChansOk, PointOk, SameElsewhere, FindTag;
    var sh := st.sh;
    var i := FindTag(sh.pending, sh.tags, tag);
    h2 := h;
    if i == |sh.pending| {
      MoveKeeps(st, t, sh, Ready, h);
    } else {
      var c := sh.pending[i];
      Parts(st, h, t);
      CutPending(sh, i, t, h);
      h2 := h[c := Held(t)];
      PlaceElsewhere(t, h, c, Held(t));
      PlaceChan(sh, h, c, Held(t));
      SameChans(sh, TakeTagged(sh, tag), h, h2, c);
      TakenPoint(t, c, h);
      OneMoved(st, t, TakeTagged(sh, tag), Parsing(c), h, h2);
    }
  }

  /** Taking a command out of the table leaves its channel fresh. */
  lemma SameChans(sh: Shared, sh2: Shared, h: map<CmdId, Place>, h2: map<CmdId, Place>, c: CmdId)
    requires ChansOk(sh, h) && c in h && ChanAt(h[c]) == FRESH && h2.Keys == h.Keys
    requires sh2.done == sh.done && sh2.tags == sh.tags
    requires forall d | d in h :: h2[d] == h[d] || (h[d] == Table && h2[d].Held?)
    ensures ChansOk(sh2, h2)
  {
  }

  ghost function AllHeld(h: map<CmdId, Place>, t: Tid): (h2: map<CmdId, Place>) {
    map c | c in h :: if h[c] == Table then Held(t) else h[c]
  }

  lemma AllTaken(sh: Shared, t: Tid, h: map<CmdId, Place>)
    requires TableOk(sh, h) && ChansOk(sh, h) && PointOk(t, Ready, h)
    ensures TableOk(sh.(pending := []), AllHeld(h, t)) && ChansOk(sh.(pending := []), AllHeld(h, t))
    ensures PointOk(t, Looping(sh.pending), AllHeld(h, t)) && SameElsewhere(t, h, AllHeld(h, t)) && Progress(h, AllHeld(h, t))
  {
  }

  lemma TakeAllKeeps(st: State, t: Tid, h: map<CmdId, Place>) returns (h2: map<CmdId, Place>)
    requires Enabled(st, DoTakeAll(t)) && CmdInv(st, h)
    ensures CmdInv(Apply(st, DoTakeAll(t)), h2) && Progress(h, h2)
  {
    hide CmdInv, TagsOk, TableOk, ChansOk, PointOk, SameElsewhere, AllHeld;
    Parts(st, h, t);
    AllTaken(st.sh, t, h);
    h2 := AllHeld(h, t);
    OneMoved(st, t, st.sh.(pending := []), Looping(st.sh.pending), h, h2);
  }

  lemma SentPoint(t: Tid, p: Point, h: map<CmdId, Place>)
    requires p.Sending? && PointOk(t, p, h)
    ensures p.cmd in h && h[p.cmd] == Held(t)
    ensures PointOk(t, Closing(p.cmd, p.after), h[p.cmd := Shutting(t)])
  {
    var c, rest := p.cmd, Rest(p.after);
    assert Todo(p) == [c] + rest && Todo(p)[0] == c && c in Todo(p);
    assert forall k | 0 <= k < |rest| :: rest[k] == Todo(p)[k + 1];
    hide Todo;
    assert Todo(Closing(c, p.after)) == rest by { ClosingTodo(c, p.after); }
    forall d | d in h && h[d] == Held(t) && d != c ensures d in rest { assert d in [c] + rest; }
  }

  lemma ClosingTodo(c: CmdId, a: After)
    ensures Todo(Closing(c, a)) == Rest(a) && Todo(Cancelling(c, a)) == Rest(a)
  {
  }

  /** The send: the channel was fresh, so this is the first. */
  lemma SendKeeps(st: State, t: Tid, p: Point, c: CmdId, sh2: Shared, h: map<CmdId, Place>) returns (h2: map<CmdId, Place>)
    requires p == PointOf(st, t) && p.Sending? && c == p.cmd && sh2 == Send(st.sh, c) && CmdInv(st, h)
    ensures CmdInv(Moved(st, t, sh2, Closing(c, p.after)), h2) && sh2.panicked == st.sh.panicked && Progress(h, h2)
  {
    var sh := st.sh;
    hide CmdInv, TagsOk, TableOk, ChansOk, PointOk, SameElsewhere, Todo, CancelOwned, TakeTagged;
    Parts(st, h, t);
    SentPoint(t, p, h);
    ChanOf(sh, h, c);
    h2 := h[c := Shutting(t)];
    PlaceElsewhere(t, h, c, Shutting(t));
    PlaceChan(sh, h, c, Shutting(t));
    assert sh2 == sh.(done := sh.done[c := ChanAt(Shutting(t))]);
    PlaceTable(sh, sh2, h, c, Shutting(t));
    OneMoved(st, t, sh2, Closing(c, p.after), h, h2);
  }

  lemma ClosedPoint(t: Tid, p: Point, h: map<CmdId, Place>)
    requires p.Closing? && PointOk(t, p, h)
    ensures p.cmd in h && h[p.cmd] == Shutting(t)
    ensures PointOk(t, Cancelling(p.cmd, p.after), h[p.cmd := Completed])
  {
    ClosingTodo(p.cmd, p.after);
    hide Todo;
  }

  /** The close: the channel was sent to and is open. */
  lemma CloseKeeps(st: State, t: Tid, p: Point, c: CmdId, sh2: Shared, h: map<CmdId, Place>) returns (h2: map<CmdId, Place>)
    requires p == PointOf(st, t) && p.Closing? && c == p.cmd && sh2 == CloseDone(st.sh, c) && CmdInv(st, h)
    ensures CmdInv(Moved(st, t, sh2, Cancelling(c, p.after)), h2) && sh2.panicked == st.sh.panicked && Progress(h, h2)
  {
    var sh := st.sh;
    hide CmdInv, TagsOk, TableOk, ChansOk, PointOk, SameElsewhere, Todo, CancelOwned, TakeTagged;
    Parts(st, h, t);
    ClosedPoint(t, p, h);
    ChanOf(sh, h, c);
    h2 := h[c := Completed];
    PlaceElsewhere(t, h, c, Completed);
    PlaceChan(sh, h, c, Completed);
    assert sh2 == sh.(done := sh.done[c := ChanAt(Completed)]);
    PlaceTable(sh, sh2, h, c, Completed);
    OneMoved(st, t, sh2, Cancelling(c, p.after), h, h2);
  }

  // ---------------------------------------------------------------- requests

  /** The places of requests differ at most in those with goroutine t. */
  ghost predicate PoppedElsewhere(t: Tid, g: seq<ReqPlace>, g2: seq<ReqPlace>) {
    forall u: Tid, r: nat | u != t :: (r < |g| && g[r] == Popped(u)) <==> (r < |g2| && g2[r] == Popped(u))
  }

  lemma ReqMoved(st: State, t: Tid, sh: Shared, p: Point, g: seq<ReqPlace>, g2: seq<ReqPlace>)
    requires ReqInv(st, g) && PoppedElsewhere(t, g, g2) && PoppedOk(t, p, g2)
    requires QueueOk(sh.contReqs, g2) && EndsOk(sh.ends, g2)
    ensures ReqInv(Moved(st, t, sh, p), g2)
  {
    hide QueueOk, EndsOk;
    var r := Moved(st, t, sh, p);
    forall u: Tid ensures PoppedOk(u, PointOf(r, u), g2) {
      if u != t { assert PoppedOk(u, PointOf(st, u), g); }
    }
  }

  /** Steps that leave the requests alone. */
  lemma ReqSame(st: State, t: Tid, sh: Shared, p: Point, g: seq<ReqPlace>)
    requires ReqInv(st, g) && sh.contReqs == st.sh.contReqs && sh.ends == st.sh.ends
    requires !p.Finishing? && !PointOf(st, t).Finishing?
    ensures ReqInv(Moved(st, t, sh, p), g)
  {
    assert PoppedOk(t, PointOf(st, t), g);
    hide QueueOk, EndsOk;
    ReqMoved(st, t, sh, p, g, g);
  }

  lemma QueueMore(rs: seq<ContReq>, ends: seq<ReqEnd>, g: seq<ReqPlace>, owner: CmdId)
    requires QueueOk(rs, g) && EndsOk(ends, g)
    ensures QueueOk(rs + [ContReq(|ends|, owner)], g + [Queued]) && EndsOk(ends + [Open], g + [Queued])
  {
    var q := rs + [ContReq(|ends|, owner)];
    assert q[|rs|].req == |g|;
    forall r | 0 <= r < |g| && g[r] == Queued ensures exists i | 0 <= i < |q| :: q[i].req == r {
      var i :| 0 <= i < |rs| && rs[i].req == r;
      assert q[i].req == r;
    }
  }

  lemma RegisterKeeps(st: State, owner: CmdId, g: seq<ReqPlace>)
    requires ReqInv(st, g)
    ensures ReqInv(st.(sh := Register(st.sh, owner)), g + [Queued])
  {
    QueueMore(st.sh.contReqs, st.sh.ends, g, owner);
    hide QueueOk, EndsOk;
    var r := st.(sh := Register(st.sh, owner));
    forall t: Tid ensures PoppedOk(t, PointOf(r, t), g + [Queued]) { assert PoppedOk(t, PointOf(st, t), g); }
  }

  lemma QueueFirst(rs: seq<ContReq>, ends: seq<ReqEnd>, g: seq<ReqPlace>, t: Tid)
    requires QueueOk(rs, g) && EndsOk(ends, g) && rs != []
    ensures rs[0].req < |g| && g[rs[0].req] == Queued
    ensures QueueOk(rs[1..], g[rs[0].req := Popped(t)]) && EndsOk(ends, g[rs[0].req := Popped(t)])
  {
    var q, r0 := rs[1..], rs[0].req;
    assert forall i | 0 <= i < |q| :: q[i] == rs[i + 1];
    forall r | 0 <= r < |g| && g[r] == Queued && r != r0 ensures exists i | 0 <= i < |q| :: q[i].req == r {
      var i :| 0 <= i < |rs| && rs[i].req == r;
      assert q[i - 1].req == r;
    }
  }

  lemma PopKeeps(st: State, t: Tid, g: seq<ReqPlace>) returns (g2: seq<ReqPlace>)
    requires ReqInv(st, g) && PointOf(st, t).Ready? && st.sh.contReqs != []
    ensures ReqInv(Moved(st, t, st.sh.(contReqs := st.sh.contReqs[1..]), Finishing(st.sh.contReqs[0].req)), g2)
  {
    var r := st.sh.contReqs[0].req;
    QueueFirst(st.sh.contReqs, st.sh.ends, g, t);
    assert PoppedOk(t, Ready, g);
    hide QueueOk, EndsOk;
    g2 := g[r := Popped(t)];
    ReqMoved(st, t, st.sh.(contReqs := st.sh.contReqs[1..]), Finishing(r), g, g2);
  }

  lemma QueueWithout(rs: seq<ContReq>, ends: seq<ReqEnd>, g: seq<ReqPlace>, r: ReqId, t: Tid, how: ReqEnd)
    requires QueueOk(rs, g) && EndsOk(ends, g) && r < |g| && g[r] == Popped(t) && how != Open
    ensures ends[r] == Open && QueueOk(rs, g[r := Ended]) && EndsOk(ends[r := how], g[r := Ended])
  {
  }

  /** Done: the request was popped and its channel is open. */
  lemma FinishKeeps(st: State, t: Tid, r: ReqId, sh2: Shared, g: seq<ReqPlace>) returns (g2: seq<ReqPlace>)
    requires ReqInv(st, g) && PointOf(st, t) == Finishing(r) && sh2 == EndReq(st.sh, r, Done)
    ensures ReqInv(Moved(st, t, sh2, Ready), g2) && sh2.panicked == st.sh.panicked
  {
    assert PoppedOk(t, Finishing(r), g);
    QueueWithout(st.sh.contReqs, st.sh.ends, g, r, t, Done);
    hide QueueOk, EndsOk;
    g2 := g[r := Ended];
    ReqMoved(st, t, sh2, Ready, g, g2);
  }

  ghost predicate OwnedIn(rs: seq<ContReq>, c: CmdId, r: ReqId) { exists i | 0 <= i < |rs| :: rs[i] == ContReq(r, c) }

  ghost predicate AllOpen(rs: seq<ContReq>, ends: seq<ReqEnd>) {
    && (forall i, j | 0 <= i < j < |rs| :: rs[i].req != rs[j].req)
    && (forall i | 0 <= i < |rs| :: rs[i].req < |ends| && ends[rs[i].req] == Open)
  }

  lemma OwnedSnoc(rs: seq<ContReq>, c: CmdId, r: ReqId)
    requires rs != []
    ensures OwnedIn(rs, c, r) <==> OwnedIn(rs[..|rs| - 1], c, r) || rs[|rs| - 1] == ContReq(r, c)
  {
    var front := rs[..|rs| - 1];
    if OwnedIn(rs, c, r) && rs[|rs| - 1] != ContReq(r, c) {
      var i :| 0 <= i < |rs| && rs[i] == ContReq(r, c);
      assert front[i] == ContReq(r, c);
    }
    if OwnedIn(front, c, r) {
      var i :| 0 <= i < |front| && front[i] == ContReq(r, c);
      assert rs[i] == ContReq(r, c);
    }
  }

  /** The cancel loop closes the channels of the requests that the command owns, each open until then. */
  lemma {:induction false} CancelEachIs(sh: Shared, rs: seq<ContReq>, c: CmdId)
    requires AllOpen(rs, sh.ends)
    ensures var q := CancelEach(sh, rs, c);
            && q == sh.(ends := q.ends) && |q.ends| == |sh.ends|
            && forall r | 0 <= r < |sh.ends| :: q.ends[r] == if OwnedIn(rs, c, r) then Cancelled else sh.ends[r]
    decreases |rs|
  {
    if rs != [] {
      var front, last := rs[..|rs| - 1], rs[|rs| - 1];
      CancelEachIs(sh, front, c);
      assert !OwnedIn(front, c, last.req) by {
        assert forall i | 0 <= i < |front| :: front[i] == rs[i] && rs[i].req != last.req;
      }
      forall r | 0 <= r < |sh.ends| ensures OwnedIn(rs, c, r) <==> OwnedIn(front, c, r) || last == ContReq(r, c) {
        OwnedSnoc(rs, c, r);
      }
      hide OwnedIn;
    }
  }

  lemma {:induction false} OthersIs(rs: seq<ContReq>, c: CmdId)
    requires forall i, j | 0 <= i < j < |rs| :: rs[i].req != rs[j].req
    ensures var q := Others(rs, c);
            && (forall x :: x in q <==> x in rs && x.owner != c)
            && (forall i, j | 0 <= i < j < |q| :: q[i].req != q[j].req)
    decreases |rs|
  {
    if rs != [] {
      var front, last := rs[..|rs| - 1], rs[|rs| - 1];
      OthersIs(front, c);
      assert rs == front + [last];
      var q := Others(front, c);
      forall i | 0 <= i < |q| ensures q[i].req != last.req {
        assert q[i] in front;
        var k :| 0 <= k < |front| && front[k] == q[i];
        assert rs[k] == q[i];
      }
    }
  }

  ghost function AfterCancel(rs: seq<ContReq>, c: CmdId, g: seq<ReqPlace>): (g2: seq<ReqPlace>)
    ensures |g2| == |g| && forall r | 0 <= r < |g| :: g2[r] == if OwnedIn(rs, c, r) then Ended else g[r]
  {
    seq(|g|, r requires 0 <= r < |g| => if OwnedIn(rs, c, r) then Ended else g[r])
  }

  lemma QueueAllOpen(rs: seq<ContReq>, ends: seq<ReqEnd>, g: seq<ReqPlace>)
    requires QueueOk(rs, g) && EndsOk(ends, g)
    ensures AllOpen(rs, ends)
  {
  }

  lemma NotOwned(rs: seq<ContReq>, c: CmdId, k: nat)
    requires k < |rs| && forall i, j | 0 <= i < j < |rs| :: rs[i].req != rs[j].req
    ensures OwnedIn(rs, c, rs[k].req) <==> rs[k].owner == c
  {
    assert rs[k].owner == c ==> rs[k] == ContReq(rs[k].req, c);
  }

  lemma QueueOthers(rs: seq<ContReq>, c: CmdId, g: seq<ReqPlace>)
    requires QueueOk(rs, g)
    ensures QueueOk(Others(rs, c), AfterCancel(rs, c, g))
  {
    OthersIs(rs, c);
    var q, g2 := Others(rs, c), AfterCancel(rs, c, g);
    hide Others, OwnedIn, AfterCancel;
    forall i | 0 <= i < |q| ensures q[i].req < |g2| && g2[q[i].req] == Queued {
      assert q[i] in q;
      var k :| 0 <= k < |rs| && rs[k] == q[i];
      NotOwned(rs, c, k);
    }
    forall r | 0 <= r < |g2| && g2[r] == Queued ensures exists i | 0 <= i < |q| :: q[i].req == r {
      var k :| 0 <= k < |rs| && rs[k].req == r;
      NotOwned(rs, c, k);
      assert rs[k] in q;
    }
  }

  lemma EndsCancelled(rs: seq<ContReq>, ends: seq<ReqEnd>, ends2: seq<ReqEnd>, c: CmdId, g: seq<ReqPlace>)
    requires QueueOk(rs, g) && EndsOk(ends, g) && |ends2| == |ends|
    requires forall r | 0 <= r < |ends| :: ends2[r] == if OwnedIn(rs, c, r) then Cancelled else ends[r]
    ensures EndsOk(ends2, AfterCancel(rs, c, g))
    ensures forall r | 0 <= r < |g| && OwnedIn(rs, c, r) :: g[r] == Queued
  {
    hide AfterCancel;
  }

  lemma CancelKeeps(st: State, t: Tid, c: CmdId, sh2: Shared, p: Point, g: seq<ReqPlace>) returns (g2: seq<ReqPlace>)
    requires ReqInv(st, g) && !PointOf(st, t).Finishing? && !p.Finishing? && sh2 == CancelOwned(st.sh, c)
    ensures ReqInv(Moved(st, t, sh2, p), g2) && sh2 == st.sh.(contReqs := sh2.contReqs, ends := sh2.ends)
  {
    var sh := st.sh;
    assert PoppedOk(t, PointOf(st, t), g);
    QueueAllOpen(sh.contReqs, sh.ends, g);
    CancelEachIs(sh, sh.contReqs, c);
    QueueOthers(sh.contReqs, c, g);
    EndsCancelled(sh.contReqs, sh.ends, sh2.ends, c, g);
    g2 := AfterCancel(sh.contReqs, c, g);
    hide QueueOk, EndsOk, AllOpen, OwnedIn, AfterCancel, Others, CancelEach;
    ReqMoved(st, t, sh2, p, g, g2);
  }

  // ---------------------------------------------------------------- every run

  ghost predicate Inv(st: State, h: map<CmdId, Place>, g: seq<ReqPlace>) {
    !st.sh.panicked && CmdInv(st, h) && ReqInv(st, g)
  }

  /** A command only ever moves on: from the table to a goroutine, from there to completion. */
  predicate Later(a: Place, b: Place) {
    match a
    case Table => true
    case Held(t) => b == Held(t) || b == Shutting(t) || b == Completed
    case Shutting(t) => b == Shutting(t) || b == Completed
    case Completed => b == Completed
  }

  ghost predicate Progress(h: map<CmdId, Place>, h2: map<CmdId, Place>) {
    forall c | c in h :: c in h2 && Later(h[c], h2[c])
  }

  lemma CmdSame(st: State, sh: Shared, h: map<CmdId, Place>)
    requires CmdInv(st, h)
    requires sh.tags == st.sh.tags && sh.cmdTag == st.sh.cmdTag && sh.done == st.sh.done && sh.pending == st.sh.pending
    ensures CmdInv(st.(sh := sh), h)
  {
    SameTags(st.sh, sh);
    hide TagsOk, PointOk;
    forall t: Tid ensures PointOk(t, PointOf(st.(sh := sh), t), h) { assert PointOk(t, PointOf(st, t), h); }
  }

  lemma ReqsSame(st: State, sh: Shared, g: seq<ReqPlace>)
    requires ReqInv(st, g) && sh.contReqs == st.sh.contReqs && sh.ends == st.sh.ends
    ensures ReqInv(st.(sh := sh), g)
  {
    hide QueueOk, EndsOk, PoppedOk;
    forall t: Tid ensures PoppedOk(t, PointOf(st.(sh := sh), t), g) { assert PoppedOk(t, PointOf(st, t), g); }
  }

  /** The steps that neither send nor close nor touch the requests. */
  lemma QuietStep(st: State, t: Tid, p: Point, h: map<CmdId, Place>, g: seq<ReqPlace>)
    requires Inv(st, h, g) && Todo(p) == Todo(PointOf(st, t))
    requires !p.Closing? && !PointOf(st, t).Closing? && !p.Finishing? && !PointOf(st, t).Finishing?
    ensures Inv(Moved(st, t, st.sh, p), h, g)
  {
    hide CmdInv, ReqInv, Todo;
    MoveKeeps(st, t, st.sh, p, h);
    ReqSame(st, t, st.sh, p, g);
  }

  lemma ResumeTodo(c: CmdId, a: After)
    ensures Todo(Resume(c, a)) == Rest(a) && !Resume(c, a).Closing? && !Resume(c, a).Finishing?
  {
  }

  /** The steps of completeCommand. */
  lemma CompletionKeeps(st: State, step: Step, h: map<CmdId, Place>, g: seq<ReqPlace>)
    returns (h2: map<CmdId, Place>, g2: seq<ReqPlace>)
    requires Enabled(st, step) && (step.DoSend? || step.DoClose? || step.DoCancel?) && Inv(st, h, g)
    ensures Inv(Apply(st, step), h2, g2) && Progress(h, h2)
  {
    hide CmdInv, ReqInv, Todo, Send, CloseDone, CancelOwned, TakeTagged, FindTag;
    h2, g2 := h, g;
    var t := step.t;
    var p := PointOf(st, t);
    var c, a := p.cmd, p.after;
    match step
    case DoSend(_) =>
      var sh := Send(st.sh, c);
      SendShape(st.sh, c);
      h2 := SendKeeps(st, t, p, c, sh, h);
      ReqSame(st, t, sh, Closing(c, a), g);
    case DoClose(_) =>
      var sh := CloseDone(st.sh, c);
      SendShape(st.sh, c);
      h2 := CloseKeeps(st, t, p, c, sh, h);
      ReqSame(st, t, sh, Cancelling(c, a), g);
    case DoCancel(_) =>
      var sh := CancelOwned(st.sh, c);
      ClosingTodo(c, a);
      ResumeTodo(c, a);
      g2 := CancelKeeps(st, t, c, sh, Resume(c, a), g);
      MoveKeeps(st, t, sh, Resume(c, a), h);
  }

  lemma SendShape(sh: Shared, c: CmdId)
    ensures Send(sh, c).contReqs == sh.contReqs && Send(sh, c).ends == sh.ends
    ensures CloseDone(sh, c).contReqs == sh.contReqs && CloseDone(sh, c).ends == sh.ends
  {
  }

  /** The steps that take commands. */
  lemma TakingKeeps(st: State, step: Step, h: map<CmdId, Place>, g: seq<ReqPlace>) returns (h2: map<CmdId, Place>)
    requires Enabled(st, step) && (step.DoBegin? || step.DoTakeTagged? || step.DoTakeAll?) && Inv(st, h, g)
    ensures Inv(Apply(st, step), h2, g) && Progress(h, h2)
  {
    assert step.DoBegin? ==> step.c !in h;
    hide CmdInv, ReqInv, Todo, FindTag;
    match step
    case DoBegin(c) =>
      h2 := h[c := Table];
      BeginKeeps(st, c, h);
      ReqsSame(st, Begin(st.sh, c), g);
    case DoTakeTagged(t, tag) =>
      h2 := TakeKeeps(st, t, tag, h);
      ReqSame(st, t, TakeTagged(st.sh, tag), PointOf(Apply(st, step), t), g);
    case DoTakeAll(t) =>
      h2 := TakeAllKeeps(st, t, h);
      ReqSame(st, t, st.sh.(pending := []), Looping(st.sh.pending), g);
  }

  lemma RequestKeeps(st: State, step: Step, h: map<CmdId, Place>, g: seq<ReqPlace>) returns (g2: seq<ReqPlace>)
    requires Enabled(st, step) && (step.DoRegister? || step.DoPop? || step.DoFinish?) && Inv(st, h, g)
    ensures Inv(Apply(st, step), h, g2)
  {
    hide CmdInv, ReqInv, TakeTagged, FindTag;
    g2 := g;
    match step
    case DoRegister(owner) =>
      g2 := g + [Queued];
      RegisterKeeps(st, owner, g);
      CmdSame(st, Register(st.sh, owner), h);
    case DoPop(t) =>
      if st.sh.contReqs != [] {
        g2 := PopKeeps(st, t, g);
        MoveKeeps(st, t, st.sh.(contReqs := st.sh.contReqs[1..]), Finishing(st.sh.contReqs[0].req), h);
      }
    case DoFinish(t) =>
      var r := PointOf(st, t).req;
      var sh := EndReq(st.sh, r, Done);
      g2 := FinishKeeps(st, t, r, sh, g);
      MoveKeeps(st, t, sh, Ready, h);
  }

  lemma MovingKeeps(st: State, step: Step, h: map<CmdId, Place>, g: seq<ReqPlace>)
    requires Enabled(st, step) && (step.DoFail? || step.DoSucceed? || step.DoDeferred? || step.DoLoop?) && Inv(st, h, g)
    ensures Inv(Apply(st, step), h, g)
  {
    hide Inv, TakeTagged, FindTag;
    var t := step.t;
    var p := PointOf(st, t);
    match step
    case DoFail(_) => QuietStep(st, t, Returning(p.cmd, true), h, g);
    case DoSucceed(_) => QuietStep(st, t, Sending(p.cmd, Return), h, g);
    case DoDeferred(_) => QuietStep(st, t, if p.err then Sending(p.cmd, Leave) else Ready, h, g);
    case DoLoop(_) =>
      assert p.rest != [] ==> [p.rest[0]] + p.rest[1..] == p.rest;
      QuietStep(st, t, if p.rest == [] then Ready else Sending(p.rest[0], Loop(p.rest[1..])), h, g);
  }

  lemma StepKeeps(st: State, step: Step, h: map<CmdId, Place>, g: seq<ReqPlace>)
    returns (h2: map<CmdId, Place>, g2: seq<ReqPlace>)
    requires Enabled(st, step) && Inv(st, h, g)
    ensures Inv(Apply(st, step), h2, g2) && Progress(h, h2)
  {
    hide Inv;
    h2, g2 := h, g;
    if step.DoSend? || step.DoClose? || step.DoCancel? {
      h2, g2 := CompletionKeeps(st, step, h, g);
    } else if step.DoBegin? || step.DoTakeTagged? || step.DoTakeAll? {
      h2 := TakingKeeps(st, step, h, g);
    } else if step.DoRegister? || step.DoPop? || step.DoFinish? {
      g2 := RequestKeeps(st, step, h, g);
    } else {
      MovingKeeps(st, step, h, g);
    }
  }

  lemma {:induction false} RunFrom(st: State, steps: seq<Step>, h: map<CmdId, Place>, g: seq<ReqPlace>)
    returns (h2: map<CmdId, Place>, g2: seq<ReqPlace>)
    requires Inv(st, h, g)
    ensures Inv(Run(st, steps), h2, g2) && Progress(h, h2)
    decreases |steps|
  {
    hide Inv;
    h2, g2 := h, g;
    if steps != [] {
      var last := steps[|steps| - 1];
      var h1, g1 := RunFrom(st, steps[..|steps| - 1], h, g);
      h2, g2 := h1, g1;
      if Enabled(Run(st, steps[..|steps| - 1]), last) { h2, g2 := StepKeeps(Run(st, steps[..|steps| - 1]), last, h1, g1); }
    }
  }

  /** In every state of every run every command and every request is in exactly one place, and no
      channel operation has panicked. */
  lemma RunKeeps(steps: seq<Step>) returns (h: map<CmdId, Place>, g: seq<ReqPlace>)
    ensures Inv(Run(Init(), steps), h, g)
  {
    assert Inv(Init(), map[], []);
    h, g := RunFrom(Init(), steps, map[], []);
  }

  // ---------------------------------------------------------------- exactly once

  ghost predicate Holds(st: State, t: Tid, c: CmdId) { c in Todo(PointOf(st, t)) }

  /** Under every interleaving: no channel operation panics, tags are unique, a done channel is sent to at
      most once and closed only after that, and it is still fresh exactly as long as the command is in the
      table or with the one goroutine that has taken it. */
  lemma CommandsOnce(steps: seq<Step>, c: CmdId)
    ensures var st := Run(Init(), steps);
            && !st.sh.panicked
            && (forall d | c in st.sh.tags && d in st.sh.tags && st.sh.tags[d] == st.sh.tags[c] :: c == d)
            && (c in st.sh.tags <==> c in st.sh.done)
            && (c in st.sh.done ==>
                  && st.sh.done[c].sends <= 1 && (st.sh.done[c].closed ==> st.sh.done[c].sends == 1)
                  && (st.sh.done[c].sends == 0 <==> c in st.sh.pending || exists t: Tid :: Holds(st, t, c)))
            && (forall t: Tid | Holds(st, t, c) :: c !in st.sh.pending)
            && (forall t: Tid, u: Tid | Holds(st, t, c) && Holds(st, u, c) :: t == u)
  {
    var h, g := RunKeeps(steps);
    var st := Run(Init(), steps);
    hide Run, ReqInv, TagText;
    assert TagsOk(st.sh) && ChansOk(st.sh, h) && TableOk(st.sh, h);
    forall t: Tid | Holds(st, t, c) ensures c in h && h[c] == Held(t) { assert PointOk(t, PointOf(st, t), h); }
    if c in h && h[c].Held? {
      assert PointOk(h[c].t, PointOf(st, h[c].t), h);
      assert Holds(st, h[c].t, c);
    }
  }

  /** A command that a goroutine has taken has been sent to exactly once, and its channel closed, when the
      goroutine is out of the code again: whatever the way out, and whatever others did meanwhile. */
  lemma TakenIsSent(steps: seq<Step>, more: seq<Step>, t: Tid, c: CmdId)
    requires Holds(Run(Init(), steps), t, c) && PointOf(Run(Run(Init(), steps), more), t).Ready?
    ensures var st := Run(Run(Init(), steps), more); c in st.sh.done && st.sh.done[c] == OVER
  {
    var h, g := RunKeeps(steps);
    var mid := Run(Init(), steps);
    var h2, g2 := RunFrom(mid, more, h, g);
    var st := Run(mid, more);
    hide Run, ReqInv, TagsOk;
    assert PointOk(t, PointOf(mid, t), h);
    assert PointOk(t, PointOf(st, t), h2);
    assert h[c] == Held(t);
    assert h2[c] == Completed;
  }

  /** When no goroutine is inside the code, every command that was ever begun is either still pending or
      completed. */
  lemma AllSettled(steps: seq<Step>, c: CmdId)
    requires forall t: Tid :: PointOf(Run(Init(), steps), t).Ready?
    requires c in Run(Init(), steps).sh.tags
    ensures var sh := Run(Init(), steps).sh; c in sh.done && sh.done[c] == if c in sh.pending then FRESH else OVER
  {
    var h, g := RunKeeps(steps);
    var st := Run(Init(), steps);
    hide Run, ReqInv, TagsOk;
    assert ChansOk(st.sh, h) && TableOk(st.sh, h);
    var t := if h[c].Held? || h[c].Shutting? then h[c].t else 0;
    assert PointOk(t, PointOf(st, t), h);
  }

  /** The channel of a continuation request is open exactly as long as the request is queued, once, or with
      the one goroutine that popped it; so it is closed once, by Done or by Cancel. */
  lemma RequestsOnce(steps: seq<Step>, r: ReqId)
    ensures var st := Run(Init(), steps);
            && !st.sh.panicked
            && (r < |st.sh.ends| ==>
                  (st.sh.ends[r] == Open <==>
                     (exists i | 0 <= i < |st.sh.contReqs| :: st.sh.contReqs[i].req == r) || exists t: Tid :: PointOf(st, t) == Finishing(r)))
            && (forall i, j | 0 <= i < j < |st.sh.contReqs| :: st.sh.contReqs[i].req != st.sh.contReqs[j].req)
            && (forall t: Tid, u: Tid | PointOf(st, t) == Finishing(r) && PointOf(st, u) == Finishing(r) :: t == u)
            && (forall t: Tid, i | PointOf(st, t) == Finishing(r) && 0 <= i < |st.sh.contReqs| :: st.sh.contReqs[i].req != r)
  {
    var h, g := RunKeeps(steps);
    var st := Run(Init(), steps);
    hide Run, CmdInv;
    assert QueueOk(st.sh.contReqs, g) && EndsOk(st.sh.ends, g);
    forall t: Tid | PointOf(st, t) == Finishing(r) ensures r < |g| && g[r] == Popped(t) { assert PoppedOk(t, PointOf(st, t), g); }
    if r < |g| && g[r].Popped? { assert PoppedOk(g[r].t, PointOf(st, g[r].t), g); }
  }

  // ---------------------------------------------------------------- first come, first served

  /** The owners of the requests that a run registers, in order. */
  ghost function Registered(steps: seq<Step>): (owners: seq<CmdId>)
    decreases |steps|
  {
    if steps == [] then []
    else Registered(steps[..|steps| - 1]) + if steps[|steps| - 1].DoRegister? then [steps[|steps| - 1].owner] else []
  }

  /** The queue is in order of registration, and every request is the one of its owner. */
  ghost predicate InOrder(sh: Shared, owners: seq<CmdId>) {
    && |sh.ends| == |owners|
    && Ascends(sh.contReqs)
    && (forall i | 0 <= i < |sh.contReqs| :: sh.contReqs[i].req < |owners| && sh.contReqs[i].owner == owners[sh.contReqs[i].req])
  }

  ghost predicate Ascends(rs: seq<ContReq>) { forall i, j | 0 <= i < j < |rs| :: rs[i].req < rs[j].req }

  lemma AscendsSnoc(q: seq<ContReq>, x: ContReq)
    requires Ascends(q) && forall y | y in q :: y.req < x.req
    ensures Ascends(q + [x])
  {
    forall i | 0 <= i < |q| ensures q[i].req < x.req { assert q[i] in q; }
  }

  lemma AscendsFront(rs: seq<ContReq>, n: nat)
    requires Ascends(rs) && n < |rs|
    ensures Ascends(rs[..n]) && forall y | y in rs[..n] :: y in rs && y.req < rs[n].req
  {
  }

  lemma {:induction false} OthersInOrder(rs: seq<ContReq>, c: CmdId)
    requires Ascends(rs)
    ensures Ascends(Others(rs, c)) && forall x | x in Others(rs, c) :: x in rs
    decreases |rs|
  {
    if rs != [] {
      var front, last := rs[..|rs| - 1], rs[|rs| - 1];
      AscendsFront(rs, |rs| - 1);
      OthersInOrder(front, c);
      AscendsSnoc(Others(front, c), last);
      hide Ascends;
      assert Others(front, c) + [] == Others(front, c);
    }
  }

  lemma {:induction false} CancelEachLength(sh: Shared, rs: seq<ContReq>, c: CmdId)
    ensures |CancelEach(sh, rs, c).ends| == |sh.ends|
    decreases |rs|
  {
    if rs != [] { CancelEachLength(sh, rs[..|rs| - 1], c); }
  }

  lemma CancelInOrder(sh: Shared, c: CmdId, owners: seq<CmdId>)
    requires InOrder(sh, owners)
    ensures InOrder(CancelOwned(sh, c), owners)
  {
    var q := Others(sh.contReqs, c);
    OthersInOrder(sh.contReqs, c);
    CancelEachLength(sh, sh.contReqs, c);
    assert CancelOwned(sh, c).contReqs == q;
    forall i | 0 <= i < |q| ensures q[i].req < |owners| && q[i].owner == owners[q[i].req] {
      assert q[i] in q;
      assert q[i] in sh.contReqs;
      var k :| 0 <= k < |sh.contReqs| && sh.contReqs[k] == q[i];
    }
  }

  lemma StepInOrder(st: State, step: Step, owners: seq<CmdId>)
    requires Enabled(st, step) && InOrder(st.sh, owners)
    ensures InOrder(Apply(st, step).sh, owners + if step.DoRegister? then [step.owner] else [])
  {
    assert owners + [] == owners;
    if step.DoCancel? { CancelInOrder(st.sh, PointOf(st, step.t).cmd, owners); }
    hide CancelOwned, TagText, Cut, FindTag;
  }

  lemma {:induction false} RunInOrder(steps: seq<Step>)
    ensures InOrder(Run(Init(), steps).sh, Registered(steps))
    decreases |steps|
  {
    if steps != [] {
      var front, last := steps[..|steps| - 1], steps[|steps| - 1];
      RunInOrder(front);
      assert Registered(front) + [] == Registered(front);
      hide InOrder, Apply;
      if Enabled(Run(Init(), front), last) { StepInOrder(Run(Init(), front), last, Registered(front)); }
    }
  }

  ghost predicate Waits(sh: Shared, r: ReqId) { exists i | 0 <= i < |sh.contReqs| :: sh.contReqs[i].req == r }

  /** In every run a continuation request from the server goes to the request that was registered first
      among those still waiting, and the others go on waiting. */
  lemma OldestFirst(steps: seq<Step>, t: Tid)
    requires PointOf(Run(Init(), steps), t).Ready? && Run(Init(), steps).sh.contReqs != []
    ensures var st := Run(Init(), steps);
            var next := Apply(st, DoPop(t));
            && PointOf(next, t).Finishing?
            && var r := PointOf(next, t).req;
            && Waits(st.sh, r) && (forall x | Waits(st.sh, x) :: r <= x)
            && (forall x :: Waits(next.sh, x) <==> Waits(st.sh, x) && x != r)
            && r < |Registered(steps)| && ContReq(r, Registered(steps)[r]) in st.sh.contReqs
  {
    RunInOrder(steps);
    var st := Run(Init(), steps);
    hide Run, Registered;
    var next := Apply(st, DoPop(t));
    var q, p := st.sh.contReqs, next.sh.contReqs;
    assert forall i | 0 <= i < |p| :: p[i] == q[i + 1];
    forall x ensures Waits(next.sh, x) <==> Waits(st.sh, x) && x != q[0].req {
      if Waits(next.sh, x) {
        var i :| 0 <= i < |p| && p[i].req == x;
        assert q[i + 1].req == x;
      }
      if Waits(st.sh, x) && x != q[0].req {
        var i :| 0 <= i < |q| && q[i].req == x;
        assert p[i - 1].req == x;
      }
    }
  }

  /** A tagged response takes out exactly the command that bears its tag, whatever else is pending. */
  lemma TaggedTakesItsCommand(steps: seq<Step>, t: Tid, c: CmdId)
    requires c in Run(Init(), steps).sh.pending && PointOf(Run(Init(), steps), t).Ready?
    ensures var st := Run(Init(), steps);
            && c in st.sh.tags
            && var next := Apply(st, DoTakeTagged(t, st.sh.tags[c]));
            && PointOf(next, t) == Parsing(c) && c !in next.sh.pending
            && forall d | d != c :: d in next.sh.pending <==> d in st.sh.pending
  {
    var h, g := RunKeeps(steps);
    var st := Run(Init(), steps);
    hide Run, ReqInv, TagsOk, TableOk, ChansOk, PointOk, FindTag, Cut;
    Parts(st, h, t);
    FindsIt(st.sh, h, c);
    CutsOut(st.sh.pending, FindTag(st.sh.pending, st.sh.tags, st.sh.tags[c]));
  }

  lemma FindsIt(sh: Shared, h: map<CmdId, Place>, c: CmdId)
    requires TagsOk(sh) && ChansOk(sh, h) && TableOk(sh, h) && c in sh.pending
    ensures c in sh.tags && Distinct(sh.pending)
    ensures var i := FindTag(sh.pending, sh.tags, sh.tags[c]); i < |sh.pending| && sh.pending[i] == c
  {
    var i := FindTag(sh.pending, sh.tags, sh.tags[c]);
    var k :| 0 <= k < |sh.pending| && sh.pending[k] == c;
    hide FindTag, TagText;
    assert i < |sh.pending|;
  }

  lemma CutsOut(s: seq<CmdId>, i: nat)
    requires Distinct(s) && i < |s|
    ensures s[i] !in Cut(s, i) && forall d | d != s[i] :: d in Cut(s, i) <==> d in s
  {
    assert s == s[..i] + [s[i]] + s[i + 1..];
  }

  // ---------------------------------------------------------------- a goroutine that runs undisturbed

  lemma RunOne(st: State, s: Step)
    requires Enabled(st, s)
    ensures Run(st, [s]) == Apply(st, s)
  {
    assert [s][..0] == [];
    hide Apply;
    assert Run(st, []) == st;
  }

  lemma {:induction false} RunConcat(st: State, a: seq<Step>, b: seq<Step>)
    ensures Run(st, a + b) == Run(Run(st, a), b)
    decreases |b|
  {
    hide Apply, Enabled;
    if b == [] {
      assert a + b == a;
    } else {
      RunConcat(st, a, b[..|b| - 1]);
      assert (a + b)[..|a + b| - 1] == a + b[..|b| - 1];
    }
  }

  /** completeCommand is a run of the machine. */
  lemma CompletesAlone(st: State, t: Tid, c: CmdId, a: After)
    requires PointOf(st, t) == Sending(c, a)
    ensures Run(st, [DoSend(t)] + [DoClose(t)] + [DoCancel(t)]) == Moved(st, t, Complete(st.sh, c), Resume(c, a))
  {
    hide Send, CloseDone, CancelOwned, Run, TakeTagged, FindTag;
    var s1 := Apply(st, DoSend(t));
    var s2 := Apply(s1, DoClose(t));
    RunOne(st, DoSend(t));
    RunOne(s1, DoClose(t));
    RunOne(s2, DoCancel(t));
    RunConcat(st, [DoSend(t)], [DoClose(t)]);
    RunConcat(st, [DoSend(t)] + [DoClose(t)], [DoCancel(t)]);
    assert Apply(s2, DoCancel(t)).threads == st.threads[t := Resume(c, a)];
  }

  /** readResponseTagged on a known tag is a run of the machine, whichever way it returns: the command is
      completed once and the goroutine is out of the code. */
  lemma TaggedAlone(st: State, t: Tid, tag: string, err: bool) returns (steps: seq<Step>)
    requires PointOf(st, t).Ready? && FindTag(st.sh.pending, st.sh.tags, tag) < |st.sh.pending|
    ensures var c := st.sh.pending[FindTag(st.sh.pending, st.sh.tags, tag)];
            Run(st, steps) == Moved(st, t, Complete(TakeTagged(st.sh, tag), c), Ready)
  {
    hide Run, Complete, FindTag;
    var c := st.sh.pending[FindTag(st.sh.pending, st.sh.tags, tag)];
    var s1 := Apply(st, DoTakeTagged(t, tag));
    RunOne(st, DoTakeTagged(t, tag));
    var complete := [DoSend(t)] + [DoClose(t)] + [DoCancel(t)];
    if err {
      var s2 := Apply(s1, DoFail(t));
      var s3 := Apply(s2, DoDeferred(t));
      RunOne(s1, DoFail(t));
      RunOne(s2, DoDeferred(t));
      CompletesAlone(s3, t, c, Leave);
      steps := [DoTakeTagged(t, tag)] + [DoFail(t)] + [DoDeferred(t)] + complete;
      RunConcat(st, [DoTakeTagged(t, tag)], [DoFail(t)]);
      RunConcat(st, [DoTakeTagged(t, tag)] + [DoFail(t)], [DoDeferred(t)]);
      RunConcat(st, [DoTakeTagged(t, tag)] + [DoFail(t)] + [DoDeferred(t)], complete);
    } else {
      var s2 := Apply(s1, DoSucceed(t));
      RunOne(s1, DoSucceed(t));
      CompletesAlone(s2, t, c, Return);
      var s3 := Moved(s2, t, Complete(s2.sh, c), Returning(c, false));
      RunOne(s3, DoDeferred(t));
      steps := [DoTakeTagged(t, tag)] + [DoSucceed(t)] + complete + [DoDeferred(t)];
      RunConcat(st, [DoTakeTagged(t, tag)], [DoSucceed(t)]);
      RunConcat(st, [DoTakeTagged(t, tag)] + [DoSucceed(t)], complete);
      RunConcat(st, [DoTakeTagged(t, tag)] + [DoSucceed(t)] + complete, [DoDeferred(t)]);
    }
  }

  // ---------------------------------------------------------------- the client object

  datatype Cmd = Cmd(id: CmdId, tag: string)

  function Ids(cmds: seq<Cmd>): (r: seq<CmdId>)
    ensures |r| == |cmds| && forall i | 0 <= i < |r| :: r[i] == cmds[i].id
  {
    seq(|cmds|, i requires 0 <= i < |cmds| => cmds[i].id)
  }

  /** What the decoder finds in the rest of a tagged response. */
  datatype Line = Line(
    sp: bool, bracket: bool, atom: bool, code: string, caps: bool, apnd: bool, copySP: bool, copy: bool,
    close: bool, spAfter: bool, text: bool)

  /** The line makes readResponseTagged return an error. */
  predicate Broken(typ: string, line: Line) {
    || typ !in ["OK", "NO", "BAD"]
    || (if line.sp && line.bracket then BrokenCode(line) || (line.spAfter && !line.text) else line.sp && !line.text)
  }

  predicate BrokenCode(line: Line) {
    || !line.atom || !line.close
    || (line.code == "CAPABILITY" && !line.caps)
    || (line.code == "APPENDUID" && !line.apnd)
    || (line.code == "COPYUID" && !(line.copySP && line.copy))
  }

  /** Pending commands are distinct, bear their tags and have not been sent to. */
  ghost predicate PendingOk(cmds: seq<Cmd>, done: map<CmdId, Chan>, tags: map<CmdId, string>) {
    && tags.Keys == done.Keys && Distinct(Ids(cmds))
    && (forall i | 0 <= i < |cmds| :: cmds[i].id in done && done[cmds[i].id] == FRESH && tags[cmds[i].id] == cmds[i].tag)
  }

  lemma PendingBegin(cmds: seq<Cmd>, done: map<CmdId, Chan>, tags: map<CmdId, string>, cmd: Cmd)
    requires PendingOk(cmds, done, tags) && cmd.id !in tags
    ensures PendingOk(cmds + [cmd], done[cmd.id := FRESH], tags[cmd.id := cmd.tag])
    ensures Ids(cmds + [cmd]) == Ids(cmds) + [cmd.id]
  {
    assert forall i | 0 <= i < |cmds| :: Ids(cmds)[i] in done;
  }

  lemma PendingCut(cmds: seq<Cmd>, done: map<CmdId, Chan>, tags: map<CmdId, string>, i: nat)
    requires PendingOk(cmds, done, tags) && i < |cmds|
    ensures PendingOk(Cut(cmds, i), done, tags) && Ids(Cut(cmds, i)) == Cut(Ids(cmds), i)
    ensures cmds[i].id in done && done[cmds[i].id] == FRESH && cmds[i].id !in Ids(Cut(cmds, i))
  {
    var r := Cut(cmds, i);
    assert forall k | 0 <= k < |r| :: r[k] == cmds[if k < i then k else k + 1];
    assert forall k | 0 <= k < |r| :: Ids(r)[k] == Ids(cmds)[if k < i then k else k + 1];
  }

  /** A channel outside the table may change. */
  lemma PendingOther(cmds: seq<Cmd>, done: map<CmdId, Chan>, tags: map<CmdId, string>, id: CmdId, ch: Chan)
    requires PendingOk(cmds, done, tags) && id in done && id !in Ids(cmds)
    ensures PendingOk(cmds, done[id := ch], tags)
  {
    assert forall i | 0 <= i < |cmds| :: Ids(cmds)[i] in Ids(cmds);
  }

  lemma {:induction false} FirstTag(cmds: seq<Cmd>, done: map<CmdId, Chan>, tags: map<CmdId, string>, tag: string, i: nat)
    requires i <= |cmds| && forall k | 0 <= k < |cmds| :: cmds[k].id in tags && tags[cmds[k].id] == cmds[k].tag
    requires forall k | 0 <= k < i :: cmds[k].tag != tag
    requires i < |cmds| ==> cmds[i].tag == tag
    ensures FindTag(Ids(cmds), tags, tag) == i
    decreases |cmds|
  {
    if cmds != [] && i > 0 {
      FirstTag(cmds[1..], done, tags, tag, i - 1);
      assert Ids(cmds)[1..] == Ids(cmds[1..]);
    }
  }

  class Client {
    var cmdTag: nat
    var pendingCmds: seq<Cmd>
    var done: map<CmdId, Chan>
    var contReqs: seq<ContReq>
    var ends: seq<ReqEnd>
    ghost var tags: map<CmdId, string>

    ghost function Abs(): (sh: Shared)
      reads this
    {
      Shared(cmdTag, tags, Ids(pendingCmds), done, contReqs, ends, false)
    }

    /** Nothing is said of the channels of commands that other goroutines have taken. */
    ghost predicate Valid()
      reads this
    {
      TagsOk(Abs()) && PendingOk(pendingCmds, done, tags) && AllOpen(contReqs, ends)
    }

    /** The command was taken out of the table and has not been sent to. */
    ghost predicate Taken(id: CmdId)
      reads this
    {
      id in done && done[id] == FRESH && id !in Ids(pendingCmds)
    }

    constructor ()
      ensures Valid() && Abs() == Init().sh
    {
      cmdTag, pendingCmds, done, contReqs, ends, tags := 0, [], map[], [], [], map[];
    }

    method BeginCommand(id: CmdId) returns (cmd: Cmd)
      requires Valid() && id !in tags
      modifies this
      ensures Valid() && Abs() == Begin(old(Abs()), id) && cmd == Cmd(id, TagText(cmdTag)) && cmd in pendingCmds
    {
      BeginTags(Abs(), id);
      cmd := Cmd(id, TagText(cmdTag + 1));
      PendingBegin(pendingCmds, done, tags, cmd);
      hide TagsOk, PendingOk, AllOpen, TagText;
      cmdTag := cmdTag + 1;
      pendingCmds, done, tags := pendingCmds + [cmd], done[id := FRESH], tags[id := cmd.tag];
      assert cmd == pendingCmds[|pendingCmds| - 1];
      assert Abs() == Begin(old(Abs()), id);
    }

    method DeletePendingCmdByTag(tag: string) returns (cmd: Option<Cmd>)
      requires Valid()
      modifies this
      ensures Valid() && Abs() == TakeTagged(old(Abs()), tag)
      ensures cmd.Some? <==> exists c :: c in old(pendingCmds) && c.tag == tag
      ensures cmd.Some? ==> cmd.value in old(pendingCmds) && cmd.value.tag == tag && Taken(cmd.value.id)
      ensures done == old(done) && contReqs == old(contReqs) && ends == old(ends)
    {
      var i := IndexOfTag(pendingCmds, tag);
      FirstTag(pendingCmds, done, tags, tag, i);
      if i == |pendingCmds| { return None; }
      PendingCut(pendingCmds, done, tags, i);
      cmd := Some(pendingCmds[i]);
      hide PendingOk, AllOpen, FindTag;
      assert cmd.value in pendingCmds;
      pendingCmds := pendingCmds[..i] + pendingCmds[i + 1..];
      SameTags(old(Abs()), Abs());
    }

    // the channel operations; a second send or close would block or panic

    method SendDone(id: CmdId)
      requires id in done && done[id] == FRESH
      modifies this`done
      ensures done == old(done)[id := Chan(1, false)] && Abs() == Send(old(Abs()), id)
    {
      done := done[id := done[id].(sends := done[id].sends + 1)];
    }

    method CloseChan(id: CmdId)
      requires id in done && !done[id].closed
      modifies this`done
      ensures done == old(done)[id := old(done)[id].(closed := true)] && Abs() == CloseDone(old(Abs()), id)
    {
      done := done[id := done[id].(closed := true)];
    }

    method End(r: ReqId, how: ReqEnd)
      requires r < |ends| && ends[r] == Open && how != Open
      modifies this`ends
      ensures ends == old(ends)[r := how] && Abs() == EndReq(old(Abs()), r, how)
    {
      ends := ends[r := how];
    }

    /** completeCommand: one send, one close, and the command's requests are cancelled. It may only be called
        for a command that was taken and not sent to. */
    method CompleteCommand(cmd: Cmd)
      requires Valid() && Taken(cmd.id)
      modifies this
      ensures Valid() && Abs() == Complete(old(Abs()), cmd.id)
      ensures done == old(done)[cmd.id := OVER] && pendingCmds == old(pendingCmds)
    {
      ghost var sh := Abs();
      PendingOther(pendingCmds, done, tags, cmd.id, OVER);
      hide TagsOk, PendingOk, AllOpen, CancelEach, Others;
      SendDone(cmd.id);
      CloseChan(cmd.id);
      ghost var closed := Abs();
      SameTags(sh, closed);
      CancelRequests(cmd.id);
      assert done == old(done)[cmd.id := OVER];
      SameTags(closed, Abs());
    }

    /** The loop of completeCommand over the requests. */
    method CancelRequests(id: CmdId)
      requires AllOpen(contReqs, ends)
      modifies this`contReqs, this`ends
      ensures Abs() == CancelOwned(old(Abs()), id) && AllOpen(contReqs, ends)
    {
      ghost var sh := Abs();
      var filtered, i := [], 0;
      hide AllOpen, EndReq;
      while i < |contReqs|
        invariant i <= |contReqs| && contReqs == sh.contReqs && filtered == Others(contReqs[..i], id)
        invariant Abs() == CancelEach(sh, contReqs[..i], id)
      {
        StillOpen(sh, contReqs, i, id);
        assert contReqs[..i + 1][..i] == contReqs[..i];
        var contReq := contReqs[i];
        if contReq.owner != id {
          filtered := filtered + [contReq];
        } else {
          End(contReq.req, Cancelled);
        }
        i := i + 1;
      }
      assert contReqs[..i] == contReqs;
      OthersOpen(sh, id);
      contReqs := filtered;
    }

    /** readResponseTagged after the deferred function is set: the error returns, or the completion. */
    method Respond(cmd: Cmd, typ: string, line: Line) returns (err: bool)
      requires Valid() && Taken(cmd.id)
      modifies this
      ensures Valid() && err == Broken(typ, line)
      ensures Abs() == (if err then old(Abs()) else Complete(old(Abs()), cmd.id)) && pendingCmds == old(pendingCmds)
      ensures err ==> Taken(cmd.id)
      ensures !err ==> done == old(done)[cmd.id := OVER]
    {
      hide Complete, TagsOk, PendingOk, AllOpen;
      var hasSP := line.sp;
      if hasSP && line.bracket {
        if !line.atom { return true; }
        if line.code == "CAPABILITY" {
          if !line.caps { return true; }
        } else if line.code == "APPENDUID" {
          if !line.apnd { return true; }
        } else if line.code == "COPYUID" {
          if !line.copySP { return true; }
          if !line.copy { return true; }
        }
        if !line.close { return true; }
        hasSP := line.spAfter;
      }
      if hasSP && !line.text { return true; }
      if typ != "OK" && typ != "NO" && typ != "BAD" { return true; }
      CompleteCommand(cmd);
      err := false;
    }

    /** readResponseTagged: an unknown tag is an error and changes nothing; otherwise the command that bears
        the tag is completed exactly once on every way out, by the explicit call or by the deferred one. */
    method ReadResponseTagged(tag: string, typ: string, line: Line) returns (cmd: Option<Cmd>, err: bool)
      requires Valid()
      modifies this
      ensures Valid() && (cmd.Some? <==> exists c :: c in old(pendingCmds) && c.tag == tag)
      ensures cmd.None? ==> err && Abs() == TakeTagged(old(Abs()), tag) && done == old(done)
      ensures cmd.Some? ==>
        && cmd.value in old(pendingCmds) && cmd.value.tag == tag && err == Broken(typ, line)
        && done == old(done)[cmd.value.id := OVER]
        && Abs() == Complete(TakeTagged(old(Abs()), tag), cmd.value.id)
    {
      hide Complete, TakeTagged, TagsOk, PendingOk, AllOpen;
      cmd := DeletePendingCmdByTag(tag);
      if cmd == None { return None, true; }
      err := Respond(cmd.value, typ, line);
      if err { CompleteCommand(cmd.value); }
    }

    /** closeWithError: the table is emptied, and every command that was in it is completed exactly once. */
    method CloseWithError()
      requires Valid()
      modifies this
      ensures Valid() && pendingCmds == []
      ensures Abs() == CompleteAll(old(Abs()).(pending := []), Ids(old(pendingCmds)))
      ensures forall id | id in old(done) ::
        id in done && done[id] == if id in Ids(old(pendingCmds)) then OVER else old(done)[id]
    {
      var cmds := pendingCmds;
      AllTakeable(cmds, done, tags);
      NonePending(done, tags);
      SameTags(Abs(), Abs().(pending := []));
      hide TagsOk, PendingOk, AllOpen, Complete;
      pendingCmds := [];
      assert Abs() == old(Abs()).(pending := []);
      CompleteEach(cmds);
    }

    /** The loop of closeWithError. */
    method CompleteEach(cmds: seq<Cmd>)
      requires Valid() && pendingCmds == [] && Distinct(Ids(cmds))
      requires forall i | 0 <= i < |cmds| :: cmds[i].id in done && done[cmds[i].id] == FRESH
      modifies this
      ensures Valid() && pendingCmds == [] && Abs() == CompleteAll(old(Abs()), Ids(cmds))
      ensures forall id | id in old(done) :: id in done && done[id] == if id in Ids(cmds) then OVER else old(done)[id]
    {
      hide Valid, Complete, Ids;
      var i := 0;
      ghost var ids := Ids(cmds);
      while i < |cmds|
        invariant i <= |cmds| && Valid() && pendingCmds == []
        invariant Abs() == CompleteAll(old(Abs()), ids[..i]) && done.Keys == old(done).Keys
        invariant forall id | id in old(done) :: done[id] == if id in ids[..i] then OVER else old(done)[id]
      {
        assert ids[..i + 1][..i] == ids[..i] && ids[..i + 1] == ids[..i] + [cmds[i].id];
        assert cmds[i].id !in ids[..i];
        CompleteCommand(cmds[i]);
        i := i + 1;
      }
      assert ids[..i] == ids;
    }

    method RegisterContReq(owner: CmdId) returns (req: ReqId)
      requires Valid()
      modifies this
      ensures Valid() && Abs() == Register(old(Abs()), owner) && req == |old(ends)|
      ensures contReqs == old(contReqs) + [ContReq(req, owner)]
    {
      hide TagsOk, PendingOk;
      req := |ends|;
      contReqs, ends := contReqs + [ContReq(req, owner)], ends + [Open];
      SameTags(old(Abs()), Abs());
    }

    /** readContinueReq: the oldest request is taken off the queue and closed by Done, once; without one it
        is an error. */
    method ReadContinueReq() returns (req: Option<ReqId>)
      requires Valid()
      modifies this
      ensures Valid() && (req == None <==> old(contReqs) == [])
      ensures req == None ==> Abs() == old(Abs())
      ensures req.Some? ==>
        && req.value == old(contReqs)[0].req && old(ends)[req.value] == Open && contReqs == old(contReqs)[1..]
        && Abs() == EndReq(old(Abs()).(contReqs := old(contReqs)[1..]), req.value, Done)
    {
      hide TagsOk, PendingOk;
      if |contReqs| == 0 { return None; }
      var r := contReqs[0].req;
      contReqs := contReqs[1..];
      End(r, Done);
      SameTags(old(Abs()), Abs());
      req := Some(r);
    }
  }

  lemma NonePending(done: map<CmdId, Chan>, tags: map<CmdId, string>)
    requires tags.Keys == done.Keys
    ensures PendingOk([], done, tags)
  {
  }

  lemma AllTakeable(cmds: seq<Cmd>, done: map<CmdId, Chan>, tags: map<CmdId, string>)
    requires PendingOk(cmds, done, tags)
    ensures tags.Keys == done.Keys && Distinct(Ids(cmds))
    ensures forall i | 0 <= i < |cmds| :: cmds[i].id in done && done[cmds[i].id] == FRESH
  {
  }

  lemma StillOpen(sh: Shared, rs: seq<ContReq>, i: nat, c: CmdId)
    requires AllOpen(rs, sh.ends) && i < |rs|
    ensures var q := CancelEach(sh, rs[..i], c); rs[i].req < |q.ends| && q.ends[rs[i].req] == Open
  {
    var front := rs[..i];
    assert forall k | 0 <= k < i :: front[k] == rs[k];
    CancelEachIs(sh, front, c);
    hide CancelEach;
    assert !OwnedIn(front, c, rs[i].req) by { assert forall k | 0 <= k < i :: front[k].req != rs[i].req; }
  }

  lemma OthersOpen(sh: Shared, c: CmdId)
    requires AllOpen(sh.contReqs, sh.ends)
    ensures AllOpen(Others(sh.contReqs, c), CancelEach(sh, sh.contReqs, c).ends)
  {
    var rs := sh.contReqs;
    CancelEachIs(sh, rs, c);
    OthersIs(rs, c);
    var q, ends := Others(rs, c), CancelEach(sh, rs, c).ends;
    hide Others, CancelEach, OwnedIn;
    forall i | 0 <= i < |q| ensures q[i].req < |ends| && ends[q[i].req] == Open {
      assert q[i] in q;
      var k :| 0 <= k < |rs| && rs[k] == q[i];
      NotOwned(rs, c, k);
    }
  }

  /** The search of deletePendingCmdByTag. */
  method IndexOfTag(cmds: seq<Cmd>, tag: string) returns (i: nat)
    ensures i <= |cmds| && (forall k | 0 <= k < i :: cmds[k].tag != tag) && (i < |cmds| ==> cmds[i].tag == tag)
  {
    i := 0;
    while i < |cmds| && cmds[i].tag != tag
      invariant i <= |cmds| && forall k | 0 <= k < i :: cmds[k].tag != tag
    {
      i := i + 1;
    }
  }
}
