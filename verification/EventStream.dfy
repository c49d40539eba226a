/** One SSE connection resumed at an id: subscribe, buffer, replay, flush, against concurrent publishers. */
module EventStream {
  import opened Basics
  import opened Walks
  import opened EventBus

  /** `sent` is emptied when it grows past this. */
  const SENT_MAX := 5_000

  /** The frame that empties it is the 5001st. */
  const BLOCK := SENT_MAX + 1

  // ---- The connection ------------------------------------------------------------------------

  /** `frames` is everything written so far; `buffered` is None once live. */
  datatype Conn = Conn(closed: bool, sent: set<EventId>, buffered: Option<seq<EventId>>, frames: seq<EventId>)

  const OPENED := Conn(false, {}, Some([]), [])

  /** Events are held back only when there is something to replay; an empty id is no id. */
  function Opened(lastId: EventId): Conn {
    if lastId == "" then OPENED.(buffered := None) else OPENED
  }

  function Sent(c: Conn, e: EventId): Conn {
    if c.closed || e in c.sent then c
    else
      var sent := c.sent + {e};
      c.(sent := if |sent| > SENT_MAX then {} else sent, frames := c.frames + [e])
  }

  function SentAll(c: Conn, es: seq<EventId>): Conn
    decreases |es|
  {
    if es == [] then c else Sent(SentAll(c, es[..|es| - 1]), es[|es| - 1])
  }

  function Filter(es: seq<EventId>, wants: EventId -> bool): seq<EventId>
    decreases |es|
  {
    if es == [] then []
    else Filter(es[..|es| - 1], wants) + (if wants(es[|es| - 1]) then [es[|es| - 1]] else [])
  }

  function Received(c: Conn, wants: EventId -> bool, e: EventId): Conn {
    if !wants(e) then c
    else if c.buffered.Some? then c.(buffered := Some(c.buffered.value + [e]))
    else Sent(c, e)
  }

  /** The replayed events, if the query succeeded, then everything held back. */
  function Resumed(c: Conn, wants: EventId -> bool, missed: Option<seq<EventId>>): Conn {
    var replayed := if missed.Some? then SentAll(c, Filter(missed.value, wants)) else c;
    SentAll(replayed.(buffered := None), if c.buffered.Some? then c.buffered.value else [])
  }

  class Connection {
    const wants: EventId -> bool
    var closed: bool
    var sent: set<EventId>
    var buffered: Option<seq<EventId>>
    var frames: seq<EventId>

    ghost function State(): Conn
      reads this
    {
      Conn(closed, sent, buffered, frames)
    }

    constructor (lastId: EventId, wants: EventId -> bool)
      ensures this.wants == wants && State() == Opened(lastId)
    {
      this.wants := wants;
      closed, sent, buffered, frames := false, {}, if lastId == "" then None else Some([]), [];
    }

    method Send(e: EventId)
      modifies this
      ensures State() == Sent(old(State()), e)
    {
      if closed || e in sent { return; }
      sent := sent + {e};
      if |sent| > SENT_MAX { sent := {}; }
      frames := frames + [e];
    }

    /** The subscription callback. */
    method OnEvent(e: EventId)
      modifies this
      ensures State() == Received(old(State()), wants, e)
    {
      if !wants(e) { return; }
      if buffered.Some? {
        buffered := Some(buffered.value + [e]);
      } else {
        Send(e);
      }
    }

    method SendWanted(es: seq<EventId>)
      modifies this
      ensures State() == SentAll(old(State()), Filter(es, wants))
    {
      ghost var before := State();
      ghost var kept := [];
      for i := 0 to |es|
        invariant kept == Filter(es[..i], wants)
        invariant State() == SentAll(before, kept)
      {
        FilterGrows(es, i, wants);
        if wants(es[i]) {
          Send(es[i]);
          SendOneMore(before, kept, es[i]);
          kept := kept + [es[i]];
        }
      }
      assert es[..|es|] == es;
    }

    method SendEach(es: seq<EventId>)
      modifies this
      ensures State() == SentAll(old(State()), es)
    {
      for i := 0 to |es|
        invariant State() == SentAll(old(State()), es[..i])
      {
        assert es[..i + 1] == es[..i] + [es[i]];
        SendOneMore(old(State()), es[..i], es[i]);
        Send(es[i]);
      }
      assert es[..|es|] == es;
    }

    /** What follows the awaited replay query; `missed` is None when the query failed. */
    method Resume(missed: Option<seq<EventId>>)
      modifies this
      ensures State() == Resumed(old(State()), wants, missed)
    {
      if missed.Some? {
        SendWanted(missed.value);
        SendsKeepBuffer(old(State()), Filter(missed.value, wants));
      }
      var pending := if buffered.Some? then buffered.value else [];
      buffered := None;
      SendEach(pending);
    }

    method Close()
      modifies this
      ensures State() == old(State()).(closed := true)
    {
      closed := true;
    }
  }

  // ---- What a batch of sends does ------------------------------------------------------------

  lemma {:induction false} SendsKeepBuffer(c: Conn, es: seq<EventId>)
    ensures SentAll(c, es).buffered == c.buffered && SentAll(c, es).closed == c.closed
  {
    if es != [] { SendsKeepBuffer(c, es[..|es| - 1]); }
  }

  lemma SendOneMore(c: Conn, es: seq<EventId>, e: EventId)
    ensures SentAll(c, es + [e]) == Sent(SentAll(c, es), e)
  {
    assert (es + [e])[..|es|] == es;
  }

  lemma FilterGrows(es: seq<EventId>, i: nat, wants: EventId -> bool)
    requires i < |es|
    ensures Filter(es[..i + 1], wants) == Filter(es[..i], wants) + (if wants(es[i]) then [es[i]] else [])
  {
    assert es[..i + 1][..i] == es[..i];
  }

  lemma {:induction false} FilterElements(es: seq<EventId>, wants: EventId -> bool)
    ensures forall e :: e in Filter(es, wants) <==> e in es && wants(e)
  {
    if es != [] {
      assert es == es[..|es| - 1] + [es[|es| - 1]];
      FilterElements(es[..|es| - 1], wants);
    }
  }

  lemma FilterOneMore(es: seq<EventId>, e: EventId, wants: EventId -> bool)
    ensures Filter(es + [e], wants) == if wants(e) then Filter(es, wants) + [e] else Filter(es, wants)
  {
    assert (es + [e])[..|es|] == es;
  }

  lemma {:induction false} FilterAll(es: seq<EventId>, wants: EventId -> bool)
    requires forall e :: e in es ==> wants(e)
    ensures Filter(es, wants) == es
  {
    if es != [] {
      assert es == es[..|es| - 1] + [es[|es| - 1]];
      FilterAll(es[..|es| - 1], wants);
    }
  }

  lemma {:induction false} FilterTwice(es: seq<EventId>, first: EventId -> bool, second: EventId -> bool, both: EventId -> bool)
    requires forall e :: both(e) <==> first(e) && second(e)
    ensures Filter(Filter(es, first), second) == Filter(es, both)
  {
    if es != [] {
      var init, last := es[..|es| - 1], es[|es| - 1];
      assert es == init + [last];
      FilterTwice(init, first, second, both);
      hide Filter;
      FilterOneMore(init, last, first);
      FilterOneMore(init, last, both);
      if first(last) {
        FilterOneMore(Filter(init, first), last, second);
      } else {
        assert Filter(es, first) == Filter(init, first);
      }
    }
  }

  /** Filtering keeps order, told by positions. */
  lemma {:induction false} FilterSorted(es: seq<EventId>, wants: EventId -> bool, i: nat, j: nat) returns (a: nat, b: nat)
    requires i < j < |Filter(es, wants)|
    ensures a < b < |es| && es[a] == Filter(es, wants)[i] && es[b] == Filter(es, wants)[j]
  {
    var init, last := es[..|es| - 1], es[|es| - 1];
    if j < |Filter(init, wants)| {
      a, b := FilterSorted(init, wants, i, j);
    } else {
      FilterElements(init, wants);
      assert Filter(init, wants)[i] in Filter(init, wants);
      a :| 0 <= a < |init| && init[a] == Filter(init, wants)[i];
      b := |es| - 1;
    }
  }

  lemma {:induction false} FilterDistinct(es: seq<EventId>, wants: EventId -> bool)
    requires Distinct(es)
    ensures Distinct(Filter(es, wants))
  {
    forall i, j | 0 <= i < j < |Filter(es, wants)| ensures Filter(es, wants)[i] != Filter(es, wants)[j] {
      var a, b := FilterSorted(es, wants, i, j);
    }
  }

  /** `sent` remembers all frames until it is emptied; up to then nothing repeats. */
  ghost predicate Deduplicated(c: Conn) {
    && (forall e :: e in c.sent ==> e in c.frames)
    && (|c.frames| <= SENT_MAX ==> |c.sent| == |c.frames| && forall e :: e in c.frames ==> e in c.sent)
    && (|c.frames| <= BLOCK ==> Distinct(c.frames))
  }

  lemma SendKeepsDeduplicated(c: Conn, e: EventId)
    requires Deduplicated(c)
    ensures Deduplicated(Sent(c, e))
  {
    AppendDistinct(c.frames, e);
  }

  /** Sending appends only what was asked for, and afterwards everything asked for has been written. */
  lemma {:induction false} SendsDeliver(c: Conn, es: seq<EventId>)
    requires Deduplicated(c)
    ensures Deduplicated(SentAll(c, es)) && c.frames <= SentAll(c, es).frames
    ensures !c.closed ==> forall e :: e in SentAll(c, es).frames <==> e in c.frames || e in es
    ensures c.closed ==> SentAll(c, es) == c
  {
    if es != [] {
      var init, last := es[..|es| - 1], es[|es| - 1];
      SendsDeliver(c, init);
      SendsKeepBuffer(c, init);
      var d := SentAll(c, init);
      SendKeepsDeduplicated(d, last);
      assert es == init + [last];
    }
  }

  function NotIn(frames: seq<EventId>): EventId -> bool {
    (e: EventId) => e !in frames
  }

  /** Within 5001 frames, nothing is written twice. */
  lemma SendAppends(c: Conn, e: EventId)
    requires Deduplicated(c) && !c.closed && |Sent(c, e).frames| <= BLOCK
    ensures |c.frames| <= BLOCK && Sent(c, e).frames == if e in c.frames then c.frames else c.frames + [e]
  {
  }

  lemma {:induction false} SendsGrow(c: Conn, es: seq<EventId>)
    ensures |c.frames| <= |SentAll(c, es).frames|
  {
    if es != [] { SendsGrow(c, es[..|es| - 1]); }
  }

  /** And a batch is appended in its own order, less what has been written. */
  lemma {:induction false} SendsAppend(c: Conn, es: seq<EventId>)
    requires Deduplicated(c) && !c.closed && Distinct(es) && |SentAll(c, es).frames| <= BLOCK
    ensures SentAll(c, es).frames == c.frames + Filter(es, NotIn(c.frames))
  {
    if es != [] {
      var init, last := es[..|es| - 1], es[|es| - 1];
      assert es == init + [last];
      AppendDistinct(init, last);
      SendsDeliverAt(c, init, last);
      SendOneMore(c, init, last);
      hide SentAll, Filter, Distinct, Deduplicated, Sent;
      SendAppends(SentAll(c, init), last);
      SendsAppend(c, init);
      FilterOneMore(init, last, NotIn(c.frames));
    }
  }

  lemma SendsDeliverAt(c: Conn, es: seq<EventId>, e: EventId)
    requires Deduplicated(c) && !c.closed
    ensures Deduplicated(SentAll(c, es)) && !SentAll(c, es).closed && (e in SentAll(c, es).frames <==> e in c.frames || e in es)
  {
    SendsDeliver(c, es);
    SendsKeepBuffer(c, es);
  }

  // ---- Publishers and the connection, interleaved --------------------------------------------

  /** The connection waits for its query, has its answer, or is live. */
  datatype Phase = Absent | Subscribed | Queried(missed: Option<seq<EventId>>) | Live(missed: Option<seq<EventId>>)

  /**
   * A publish inserts into the outbox, and some time later notifies the subscribers. `earlier` are the
   * events whose notification ran before this connection subscribed, `later` those after it, in order, and
   * `snapshot` is the outbox the replay query saw.
   */
  datatype World = World(
    inserted: set<EventId>,
    outbox: set<EventId>,
    notified: set<EventId>,
    phase: Phase,
    conn: Conn,
    earlier: set<EventId>,
    later: seq<EventId>,
    snapshot: set<EventId>)

  /** One connection's fixed parameters: any string a client sends to resume at, and what passes its filter. */
  datatype Client = Client(lastId: EventId, wants: EventId -> bool)

  ghost predicate InsertEvent(w: World, w': World, e: EventId) {
    e !in w.inserted && w' == w.(inserted := w.inserted + {e}, outbox := w.outbox + {e})
  }

  ghost predicate NotifyEvent(cl: Client, w: World, w': World, e: EventId) {
    && e in w.inserted && e !in w.notified
    && w' == w.(notified := w.notified + {e}, later := w.later + [e], conn := if w.phase.Absent? || w.conn.closed then w.conn else Received(w.conn, cl.wants, e))
  }

  ghost predicate PruneOutbox(w: World, w': World) {
    w'.outbox <= w.outbox && w' == w.(outbox := w'.outbox)
  }

  /** Without an id to resume at the connection is live at once. */
  ghost predicate Subscribe(cl: Client, w: World, w': World) {
    w.phase.Absent? && w' == w.(phase := if cl.lastId == "" then Live(None) else Subscribed, conn := Opened(cl.lastId), earlier := w.notified, later := [])
  }

  /** The query reads the outbox at one moment, or fails. */
  ghost predicate Query(cl: Client, w: World, w': World) {
    && w.phase.Subscribed? && w'.phase.Queried?
    && (w'.phase.missed.Some? ==> IsReplay(w.outbox, cl.lastId, REPLAY_MAX, w'.phase.missed.value))
    && w' == w.(phase := w'.phase, snapshot := w.outbox)
  }

  ghost predicate Flush(cl: Client, w: World, w': World) {
    w.phase.Queried? && w' == w.(phase := Live(w.phase.missed), conn := Resumed(w.conn, cl.wants, w.phase.missed))
  }

  ghost predicate Disconnect(w: World, w': World) {
    !w.phase.Absent? && w' == w.(conn := w.conn.(closed := true))
  }

  ghost predicate Step(cl: Client, w: World, w': World) {
    || (exists e :: InsertEvent(w, w', e))
    || (exists e :: NotifyEvent(cl, w, w', e))
    || PruneOutbox(w, w') || Subscribe(cl, w, w') || Query(cl, w, w') || Flush(cl, w, w') || Disconnect(w, w')
  }

  ghost function Steps(cl: Client): (World, World) -> bool {
    (w, w') => Step(cl, w, w')
  }

  ghost predicate Initial(w: World) {
    w.phase == Absent && w.outbox <= w.inserted && w.notified <= w.inserted && w.snapshot == {}
  }

  /** Events the filter lets through that were notified after this connection subscribed. */
  ghost predicate Pushed(cl: Client, w: World, e: EventId) {
    cl.wants(e) && e in w.notified && e !in w.earlier
  }

  ghost predicate Replayed(cl: Client, w: World, e: EventId)
    requires w.phase.Queried? || w.phase.Live?
  {
    cl.wants(e) && w.phase.missed.Some? && e in w.phase.missed.value
  }

  function Answer(phase: Phase): seq<EventId>
    requires phase.Queried? || phase.Live?
  {
    if phase.missed.Some? then phase.missed.value else []
  }

  /** `later` lists what was notified since the connection subscribed. */
  ghost predicate LaterListed(w: World) {
    !w.phase.Absent? ==> Distinct(w.later) && forall e :: e in w.later <==> e in w.notified && e !in w.earlier
  }

  /** Until it is live, an open connection holds back the wanted notifications in order. */
  ghost predicate HeldBack(cl: Client, w: World) {
    (w.phase.Subscribed? || w.phase.Queried?) && !w.conn.closed ==> w.conn.buffered == Some(Filter(w.later, cl.wants))
  }

  /** Afterwards it has written the answer to its query, then the others. */
  ghost predicate WrittenInOrder(cl: Client, w: World) {
    w.phase.Live? && !w.conn.closed && |w.conn.frames| <= BLOCK ==>
      w.conn.frames == Filter(Answer(w.phase), cl.wants) + Filter(w.later, Unanswered(cl, Answer(w.phase)))
  }

  ghost predicate InOrder(cl: Client, w: World) {
    LaterListed(w) && HeldBack(cl, w) && WrittenInOrder(cl, w)
  }

  function Unanswered(cl: Client, answer: seq<EventId>): EventId -> bool {
    (e: EventId) => cl.wants(e) && e !in answer
  }

  ghost predicate Invariant(cl: Client, w: World) {
    && w.notified <= w.inserted && w.outbox <= w.inserted && w.snapshot <= w.inserted
    && (w.phase.Absent? || Deduplicated(w.conn))
    && (w.phase.Queried? || w.phase.Live? ==> w.phase.missed.Some? ==> cl.lastId != "" && IsReplay(w.snapshot, cl.lastId, REPLAY_MAX, w.phase.missed.value))
    && (w.phase.Subscribed? || w.phase.Queried? ==>
          && cl.lastId != "" && w.conn.frames == [] && w.conn.buffered.Some?
          && (!w.conn.closed ==> forall e :: e in w.conn.buffered.value <==> Pushed(cl, w, e)))
    && (w.phase.Live? ==> w.conn.buffered == None)
    && InOrder(cl, w)
    && (w.phase.Live? && !w.conn.closed ==> forall e :: e in w.conn.frames <==> Pushed(cl, w, e) || Replayed(cl, w, e))
  }

  lemma NotifyKeepsOrder(cl: Client, w: World, w': World, e: EventId)
    requires Invariant(cl, w) && NotifyEvent(cl, w, w', e) && (!w.phase.Absent? ==> w.earlier <= w.notified)
    ensures InOrder(cl, w')
  {
    hide IsReplay, Distinct, Filter, Deduplicated, Sent;
    assert LaterListed(w') by {
      AppendDistinct(w.later, e);
      hide HeldBack, WrittenInOrder;
    }
    assert HeldBack(cl, w') by {
      FilterOneMore(w.later, e, cl.wants);
      hide LaterListed, WrittenInOrder;
    }
    if w.phase.Live? && !w.conn.closed {
      NotifiedLive(cl, w.conn, Answer(w.phase), w.later, e);
    }
  }

  /** A notification that reaches a live connection is written last, unless the answer has brought the event already. */
  lemma NotifiedLive(cl: Client, conn: Conn, answer: seq<EventId>, later: seq<EventId>, e: EventId)
    requires Deduplicated(conn) && !conn.closed && conn.buffered == None && e !in later
    requires forall x :: x in conn.frames <==> cl.wants(x) && (x in later || x in answer)
    requires |conn.frames| <= BLOCK ==> conn.frames == Filter(answer, cl.wants) + Filter(later, Unanswered(cl, answer))
    ensures |Received(conn, cl.wants, e).frames| <= BLOCK ==>
              Received(conn, cl.wants, e).frames == Filter(answer, cl.wants) + Filter(later + [e], Unanswered(cl, answer))
  {
    FilterOneMore(later, e, Unanswered(cl, answer));
    hide Deduplicated, Filter, Sent;
    if cl.wants(e) && |Received(conn, cl.wants, e).frames| <= BLOCK {
      SendAppends(conn, e);
    }
  }

  lemma FlushKeepsOrder(cl: Client, w: World, w': World)
    requires Invariant(cl, w) && Flush(cl, w, w')
    ensures InOrder(cl, w')
  {
    var replayed := SentAll(w.conn, Filter(Answer(w.phase), cl.wants)).(buffered := None);
    assert SentAll(w.conn, []) == w.conn && Filter([], cl.wants) == [];
    SendsKeepBuffer(w.conn, Filter(Answer(w.phase), cl.wants));
    SendsKeepBuffer(replayed, w.conn.buffered.value);
    if !w.conn.closed && |w'.conn.frames| <= BLOCK {
      FlushAppends(cl, w.conn, Answer(w.phase), w.later, w'.conn, Unanswered(cl, Answer(w.phase))) by {
        AnswerAscends(cl, w);
        AscendingDistinct(Answer(w.phase));
      }
    }
  }

  lemma FlushAppends(cl: Client, conn: Conn, answer: seq<EventId>, later: seq<EventId>, after: Conn, unanswered: EventId -> bool)
    requires Deduplicated(conn) && !conn.closed && conn.frames == [] && Distinct(answer) && Distinct(later)
    requires forall e :: unanswered(e) <==> cl.wants(e) && e !in answer
    requires after == SentAll(SentAll(conn, Filter(answer, cl.wants)).(buffered := None), Filter(later, cl.wants)) && |after.frames| <= BLOCK
    ensures after.frames == Filter(answer, cl.wants) + Filter(later, unanswered)
  {
    var missed, pending := Filter(answer, cl.wants), Filter(later, cl.wants);
    var c := SentAll(conn, missed);
    FilterDistinct(answer, cl.wants);
    FilterDistinct(later, cl.wants);
    FilterElements(answer, cl.wants);
    SendsDeliver(conn, missed);
    SendsKeepBuffer(conn, missed);
    SendsGrow(c.(buffered := None), pending);
    hide Deduplicated, Distinct, SentAll, Filter;
    assert c.frames == missed by {
      SendsAppend(conn, missed);
      FilterAll(missed, NotIn(conn.frames));
    }
    SendsAppend(c.(buffered := None), pending);
    FilterTwice(later, cl.wants, NotIn(missed), unanswered);
  }

  lemma AnswerAscends(cl: Client, w: World)
    requires Invariant(cl, w) && (w.phase.Queried? || w.phase.Live?)
    ensures Ascending(Answer(w.phase))
  {
  }

  lemma NotifyKeeps(cl: Client, w: World, w': World, e: EventId)
    requires Invariant(cl, w) && NotifyEvent(cl, w, w', e)
    requires !w.phase.Absent? ==> w.earlier <= w.notified
    ensures Invariant(cl, w')
  {
    NotifyKeepsOrder(cl, w, w', e);
    hide InOrder, IsReplay, Filter;
    if w.phase.Live? {
      if !w.conn.closed && cl.wants(e) {
        SendsDeliver(w.conn, [e]);
        assert [e][..0] == [];
        assert SentAll(w.conn, [e]) == Sent(w.conn, e);
        SendsKeepBuffer(w.conn, [e]);
      }
      hide Deduplicated, SentAll, Sent;
    } else {
      hide Deduplicated, SentAll, Sent;
    }
  }

  lemma FlushKeeps(cl: Client, w: World, w': World)
    requires Invariant(cl, w) && Flush(cl, w, w')
    ensures Invariant(cl, w')
  {
    FlushKeepsOrder(cl, w, w');
    hide InOrder;
    var missed := if w.phase.missed.Some? then Filter(w.phase.missed.value, cl.wants) else [];
    var c := SentAll(w.conn, missed);
    SendsDeliver(w.conn, missed);
    SendsKeepBuffer(w.conn, missed);
    var pending := w.conn.buffered.value;
    FilterElements(Answer(w.phase), cl.wants);
    SendsDeliver(c.(buffered := None), pending);
    SendsKeepBuffer(c.(buffered := None), pending);
  }

  ghost predicate Reachable(cl: Client, w: World) {
    Invariant(cl, w) && (!w.phase.Absent? ==> w.earlier <= w.notified)
  }

  lemma {:induction false} StepKeeps(cl: Client, w: World, w': World)
    requires Reachable(cl, w) && Step(cl, w, w')
    ensures Reachable(cl, w')
  {
    if e :| NotifyEvent(cl, w, w', e) {
      NotifyKeeps(cl, w, w', e);
    } else if Flush(cl, w, w') {
      FlushKeeps(cl, w, w');
    } else if Query(cl, w, w') {
    } else if Subscribe(cl, w, w') {
    }
  }

  lemma {:induction false} RunsKeep(cl: Client, run: seq<World>)
    requires IsWalk(Steps(cl), run) && Initial(run[0])
    ensures Reachable(cl, run[|run| - 1])
  {
    if |run| > 1 {
      assert Steps(cl)(run[|run| - 2], run[|run| - 1]);
      RunsKeep(cl, run[..|run| - 1]);
      StepKeeps(cl, run[|run| - 2], run[|run| - 1]);
    }
  }

  /**
   * Whatever the interleaving: once live, an open connection has written exactly the wanted events that
   * the replay page held or that were notified after it subscribed, and none twice within 5001 frames.
   * Resumed at anything but a well-formed id, it writes what is pushed and nothing else.
   */
  lemma DeliversExactly(cl: Client, run: seq<World>)
    requires IsWalk(Steps(cl), run) && Initial(run[0])
    ensures
      var w := run[|run| - 1];
      w.phase.Live? && !w.conn.closed ==>
        && (forall e :: e in w.conn.frames <==> Pushed(cl, w, e) || Replayed(cl, w, e))
        && (!WellFormedId(cl.lastId) ==> forall e :: e in w.conn.frames <==> Pushed(cl, w, e))
        && (|w.conn.frames| <= BLOCK ==> Distinct(w.conn.frames))
  {
    RunsKeep(cl, run);
  }

  ghost predicate NotifiedBefore(later: seq<EventId>, a: EventId, b: EventId) {
    exists i, j :: 0 <= i < j < |later| && later[i] == a && later[j] == b
  }

  lemma FilterAscends(es: seq<EventId>, wants: EventId -> bool)
    requires Ascending(es)
    ensures Ascending(Filter(es, wants))
  {
    forall i, j | 0 <= i < j < |Filter(es, wants)| ensures Before(Filter(es, wants)[i], Filter(es, wants)[j]) {
      var a, b := FilterSorted(es, wants, i, j);
    }
  }

  lemma FilterKeepsOrder(es: seq<EventId>, wants: EventId -> bool, i: nat, j: nat)
    requires i < j < |Filter(es, wants)|
    ensures NotifiedBefore(es, Filter(es, wants)[i], Filter(es, wants)[j])
  {
    var a, b := FilterSorted(es, wants, i, j);
  }

  /**
   * And in order, up to 5001 frames: first the wanted events of the replay, in the order of the page, which is
   * the byte order of ids; then the others, none of them in the page, in the order they were notified, whether
   * they were held back or came once the connection was live.
   */
  lemma DeliversInOrder(cl: Client, run: seq<World>) returns (n: nat)
    requires IsWalk(Steps(cl), run) && Initial(run[0])
    ensures
      var w := run[|run| - 1];
      w.phase.Live? && !w.conn.closed && |w.conn.frames| <= BLOCK ==>
        && n <= |w.conn.frames| && Ascending(w.conn.frames[..n])
        && (forall e :: e in w.conn.frames[..n] <==> Replayed(cl, w, e))
        && (forall e :: e in w.conn.frames[n..] ==> !Replayed(cl, w, e))
        && (forall i, j :: n <= i < j < |w.conn.frames| ==> NotifiedBefore(w.later, w.conn.frames[i], w.conn.frames[j]))
  {
    RunsKeep(cl, run);
    var w := run[|run| - 1];
    n := if w.phase.Live? then |Filter(Answer(w.phase), cl.wants)| else 0;
    if w.phase.Live? && !w.conn.closed && |w.conn.frames| <= BLOCK {
      AnswerAscends(cl, w);
      FramesInOrder(cl, w, n);
    }
  }

  lemma FramesInOrder(cl: Client, w: World, n: nat)
    requires w.phase.Live? && Ascending(Answer(w.phase)) && n == |Filter(Answer(w.phase), cl.wants)|
    requires w.conn.frames == Filter(Answer(w.phase), cl.wants) + Filter(w.later, Unanswered(cl, Answer(w.phase)))
    ensures n <= |w.conn.frames| && Ascending(w.conn.frames[..n])
    ensures forall e :: e in w.conn.frames[..n] <==> Replayed(cl, w, e)
    ensures forall e :: e in w.conn.frames[n..] ==> !Replayed(cl, w, e)
    ensures forall i, j :: n <= i < j < |w.conn.frames| ==> NotifiedBefore(w.later, w.conn.frames[i], w.conn.frames[j])
  {
    hide Filter, Ascending, NotifiedBefore;
    var others := Filter(w.later, Unanswered(cl, Answer(w.phase)));
    assert w.conn.frames[..n] == Filter(Answer(w.phase), cl.wants) && w.conn.frames[n..] == others;
    FilterAscends(Answer(w.phase), cl.wants);
    FilterElements(Answer(w.phase), cl.wants);
    FilterElements(w.later, Unanswered(cl, Answer(w.phase)));
    forall i, j | n <= i < j < |w.conn.frames| ensures NotifiedBefore(w.later, w.conn.frames[i], w.conn.frames[j]) {
      FilterKeepsOrder(w.later, Unanswered(cl, Answer(w.phase)), i - n, j - n);
      assert others[i - n] == w.conn.frames[i] && others[j - n] == w.conn.frames[j];
    }
  }

  function Waiting(outbox: set<EventId>, after: EventId): set<EventId> {
    set e | e in outbox && Before(after, e)
  }

  /**
   * At least once: a wanted event is written if its notification came after subscribing, whatever became of
   * the replay, or if it was waiting after a well-formed id when the query ran, among at most 500.
   */
  lemma NothingLost(cl: Client, run: seq<World>, e: EventId)
    requires IsWalk(Steps(cl), run) && Initial(run[0])
    requires
      var w := run[|run| - 1];
      && w.phase.Live? && !w.conn.closed && cl.wants(e)
      && (|| (e in w.notified && e !in w.earlier)
          || (WellFormedId(cl.lastId) && w.phase.missed.Some? && e in Waiting(w.snapshot, cl.lastId)
              && |Waiting(w.snapshot, cl.lastId)| <= REPLAY_MAX))
    ensures e in run[|run| - 1].conn.frames
  {
    DeliversExactly(cl, run);
    RunsKeep(cl, run);
    var w := run[|run| - 1];
    if !(e in w.notified && e !in w.earlier) {
      PageIsEverything(w.snapshot, cl.lastId, w.phase.missed.value);
    }
  }

  /** The page misses nothing exactly when at most 500 events were waiting. */
  lemma PageIsEverything(outbox: set<EventId>, after: EventId, page: seq<EventId>)
    requires IsPage(outbox, after, REPLAY_MAX, page)
    ensures (forall e :: e in Waiting(outbox, after) ==> e in page) <==> |Waiting(outbox, after)| <= REPLAY_MAX
  {
    var all :| IsListing(outbox, after, all) && page == Limited(all, REPLAY_MAX);
    AscendingDistinct(all);
    CardinalityTellsDistinct(all);
    assert Elements(all) == Waiting(outbox, after);
    if |Waiting(outbox, after)| > REPLAY_MAX {
      assert all[REPLAY_MAX] in all && all[REPLAY_MAX] !in page;
    }
  }

  lemma AscendingDistinct(ids: seq<EventId>)
    requires Ascending(ids)
    ensures Distinct(ids)
  {
    forall i, j | 0 <= i < j < |ids| ensures ids[i] != ids[j] {
      BeforeTrichotomy(ids[i], ids[j]);
    }
  }

  lemma {:induction false} SendDistinct(es: seq<EventId>)
    requires Distinct(es) && |es| <= BLOCK
    ensures SentAll(OPENED, es).frames == es
    ensures |es| == BLOCK ==> SentAll(OPENED, es).sent == {}
  {
    if es != [] {
      var init, last := es[..|es| - 1], es[|es| - 1];
      assert es == init + [last];
      AppendDistinct(init, last);
      SendDistinct(init);
      SendsDeliver(OPENED, init);
      SendsKeepBuffer(OPENED, init);
      SendOneMore(OPENED, init, last);
    }
  }

  /**
   * The limit of the dedupe: after 5001 distinct frames the memory is emptied, and an event whose
   * notification arrives only then is written a second time.
   */
  lemma LateNotificationRepeats(es: seq<EventId>)
    requires Distinct(es) && |es| == BLOCK
    ensures SentAll(OPENED, es + [es[0]]).frames == es + [es[0]]
  {
    SendDistinct(es);
    SendsKeepBuffer(OPENED, es);
    SendOneMore(OPENED, es, es[0]);
  }
}
