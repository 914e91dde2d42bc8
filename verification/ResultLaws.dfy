/** Laws of `MultiResults`: alignment, conservation of result sets, and when draining early goes unnoticed. */
module ResultLaws {
  import opened Text
  import opened MultiResults

  // ---------------------------------------------------------------- pairing

  lemma {:induction false} SetCountAppend(counts: seq<int>, n: int)
    ensures SetCount(counts + [n]) == SetCount(counts) + (if n == RESULT_SET_VALUE then 1 else 0)
  {
    if counts == [] {
      assert counts + [n] == [n] && [n][1..] == [];
    } else {
      assert (counts + [n])[1..] == counts[1..] + [n];
      SetCountAppend(counts[1..], n);
    }
  }

  lemma {:induction false} PairedAppendStat(counts: seq<int>, queue: seq<ResultSetId>, n: int)
    requires SetCount(counts) == |queue| && n != RESULT_SET_VALUE
    ensures SetCount(counts + [n]) == |queue| && Paired(counts + [n], queue) == Paired(counts, queue) + [StatEntry(n)]
  {
    SetCountAppend(counts, n);
    if counts == [] {
      assert counts + [n] == [n] && [n][1..] == [];
    } else {
      assert (counts + [n])[1..] == counts[1..] + [n];
      PairedAppendStat(counts[1..], if counts[0] == RESULT_SET_VALUE then queue[1..] else queue, n);
    }
  }

  lemma {:induction false} PairedAppendSet(counts: seq<int>, queue: seq<ResultSetId>, rs: ResultSetId)
    requires SetCount(counts) == |queue|
    ensures SetCount(counts + [RESULT_SET_VALUE]) == |queue + [rs]|
    ensures Paired(counts + [RESULT_SET_VALUE], queue + [rs]) == Paired(counts, queue) + [SetEntry(rs)]
  {
    SetCountAppend(counts, RESULT_SET_VALUE);
    if counts == [] {
      assert counts + [-1] == [-1] && [-1][1..] == [] && queue + [rs] == [rs];
    } else {
      assert (counts + [RESULT_SET_VALUE])[1..] == counts[1..] + [RESULT_SET_VALUE];
      if counts[0] == RESULT_SET_VALUE {
        assert (queue + [rs])[1..] == queue[1..] + [rs];
        PairedAppendSet(counts[1..], queue[1..], rs);
      } else {
        PairedAppendSet(counts[1..], queue, rs);
      }
    }
  }

  // ---------------------------------------------------------------- fetching one packet

  /** What holds inside the drain loop. */
  predicate Draining(s: State) {
    Aligned(s) && GoodWire(s.wire) && s.info.Multiple? && s.info.idx < |s.info.counts| && (s.have <==> s.wire != [])
  }

  lemma AheadAppend(counts: seq<int>, idx: nat, n: int)
    requires idx < |counts|
    ensures Ahead(Multiple(counts + [n], idx)) == Ahead(Multiple(counts, idx)) + [n]
  {
  }

  /** What one fetch does: it moves a packet from the wire to the statistics and the queue. */
  predicate Fetched(s: State)
    requires Draining(s) && s.have
  {
    var (t, threw) := FetchNext(s);
    && Draining(t) && Future(t) == Future(s) && (threw <==> s.wire[0].Failed?)
    && t.info.idx == s.info.idx && t.current == s.current && t.given == s.given && t.caching == s.caching
    && t.wire == (if threw then [] else s.wire[1..])
  }

  lemma FetchCount(s: State)
    requires Draining(s) && s.have && s.wire[0].Count?
    ensures Fetched(s)
  {
    hide Paired, SetCount;
    var (t, threw) := FetchNext(s);
    var ahead, counts, idx := Ahead(s.info), s.info.counts, s.info.idx;
    var n := s.wire[0].affected;
    PairedAppendStat(ahead, s.queue, n);
    AheadAppend(counts, idx, n);
    FutureShift(Paired(ahead, s.queue), [StatEntry(n)], s.wire);
    assert t.have ==> t.wire == s.wire[1..];
  }

  lemma FetchRows(s: State)
    requires Draining(s) && s.have && s.wire[0].Rows?
    ensures Fetched(s)
  {
    hide Paired, SetCount, FetchNext, WireEntries, Ahead;
    var t := FetchNext(s).0;
    var rs := s.wire[0].rs;
    FetchRowsState(s);
    PairedAppendSet(Ahead(s.info), s.queue, rs);
    AheadAppend(s.info.counts, s.info.idx, RESULT_SET_VALUE);
    FutureShift(Paired(Ahead(s.info), s.queue), [SetEntry(rs)], s.wire);
    assert t.have ==> t.wire == s.wire[1..];
  }

  lemma FetchRowsState(s: State)
    requires Draining(s) && s.have && s.wire[0].Rows?
    ensures var t := FetchNext(s).0;
            FetchNext(s) == (s.(info := Multiple(s.info.counts + [RESULT_SET_VALUE], s.info.idx),
                                queue := s.queue + [s.wire[0].rs], wire := s.wire[1..], have := |s.wire| > 1,
                                active := t.active), false)
  {
  }

  lemma FetchError(s: State)
    requires Draining(s) && s.have && s.wire[0].Failed?
    ensures Fetched(s)
  {
    hide Paired, SetCount;
    var (t, threw) := FetchNext(s);
    var ahead, counts, idx := Ahead(s.info), s.info.counts, s.info.idx;
    PairedAppendStat(ahead, s.queue, EXECUTE_FAILED);
    PairedAppendStat(ahead + [EXECUTE_FAILED], s.queue, EXECUTE_FAILED);
    AheadAppend(counts, idx, EXECUTE_FAILED);
    AheadAppend(counts + [EXECUTE_FAILED], idx, EXECUTE_FAILED);
    assert s.wire[1..] == [];
    FutureShift(Paired(ahead, s.queue), [StatEntry(EXECUTE_FAILED), StatEntry(EXECUTE_FAILED)], s.wire);
    var p := Paired(ahead, s.queue);
    var e := StatEntry(EXECUTE_FAILED);
    assert p + [e] + [e] == p + [e, e];
  }

  /** Fetching moves a packet from the wire to the statistics and the queue; what is to come stays the same. */
  lemma FetchKeepsFuture(s: State)
    requires Draining(s) && s.have
    ensures var (t, threw) := FetchNext(s);
            Draining(t) && Future(t) == Future(s) && (threw <==> s.wire[0].Failed?)
            && t.info.idx == s.info.idx && t.current == s.current && t.given == s.given && t.caching == s.caching
            && t.wire == (if threw then [] else s.wire[1..])
  {
    hide FetchNext, Future, Draining, Aligned;
    assert s.wire != [] by { DrainingHasWire(s); }
    match s.wire[0]
    case Count(_) => FetchCount(s);
    case Rows(_) => FetchRows(s);
    case Failed => FetchError(s);
  }

  lemma DrainingHasWire(s: State)
    requires Draining(s) && s.have
    ensures s.wire != []
  {
  }

  lemma FutureShift(p: seq<Entry>, e: seq<Entry>, wire: seq<Packet>)
    requires wire != [] && PacketEntries(wire[0]) == e
    ensures p + WireEntries(wire) == p + e + WireEntries(wire[1..])
  {
    assert p + (e + WireEntries(wire[1..])) == p + e + WireEntries(wire[1..]);
  }

  lemma InvIsDraining(s: State)
    requires Inv(s) && s.have
    ensures Draining(s)
  {
  }

  predicate EndsInError(wire: seq<Packet>) {
    wire != [] && wire[|wire| - 1].Failed?
  }

  /** The drain loop empties the wire and clears the flags; it throws exactly if the wire ends in an error. */
  lemma {:induction false} DrainKeepsFuture(s: State)
    requires Draining(s)
    ensures var (t, threw) := Drain(s);
            Draining(t) && Future(t) == Future(s) && t.wire == [] && !t.have && (threw <==> EndsInError(s.wire))
            && t.caching == (threw && s.caching) && t.current == s.current && t.given == s.given
            && t.info.idx == s.info.idx
    decreases |s.wire|
  {
    hide Future, FetchNext, Draining, Aligned, GoodWire;
    if s.wire == [] {
      DrainStops(s);
    } else {
      assert s.have by { DrainingHas(s); }
      FetchKeepsFuture(s);
      var (t, threw) := FetchNext(s);
      FetchedEnd(s, t, threw);
      if !threw {
        DrainKeepsFuture(t);
      }
    }
  }

  lemma DrainStops(s: State)
    requires Draining(s) && s.wire == []
    ensures var t := s.(caching := false, have := false);
            Draining(t) && Future(t) == Future(s)
  {
  }

  lemma DrainingHas(s: State)
    requires Draining(s)
    ensures s.have <==> s.wire != []
  {
  }

  /** A fetch throws on the error at the end of the wire, or leaves it there. */
  lemma FetchedEnd(s: State, t: State, threw: bool)
    requires Draining(s) && s.have && Draining(t) && (threw <==> s.wire[0].Failed?)
    requires t.wire == (if threw then [] else s.wire[1..])
    ensures threw ==> EndsInError(s.wire)
    ensures !threw ==> (EndsInError(s.wire) <==> EndsInError(t.wire))
    ensures t.have <==> t.wire != []
  {
    assert s.wire[1..] != [] ==> s.wire[1..][|s.wire| - 2] == s.wire[|s.wire| - 1];
  }

  // ---------------------------------------------------------------- one call of getMoreResults

  datatype Seen = Seen(more: bool, current: Option<ResultSetId>, count: int) | Raised

  function SeenAfter(s: State, o: Outcome): Seen {
    match o
    case Answer(more) => Seen(more, s.current, LargeUpdateCount(s.info))
    case Threw => Raised
  }

  /** What an iterator over the results shows next. */
  function Ideal(future: seq<Entry>): Seen {
    if future == [] then Seen(false, None, -1)
    else
      match future[0]
      case SetEntry(rs) => Seen(true, Some(rs), -1)
      case StatEntry(n) => Seen(false, None, n)
  }

  function Rest(future: seq<Entry>): seq<Entry> {
    if future == [] then [] else future[1..]
  }

  /** A count whose 32-bit form is -1 makes the driver give up the rest of the wire. */
  predicate Hazard(p: Packet) {
    p.Count? && Trunc32(p.affected) == -1
  }

  predicate Safe(s: State) {
    s.have ==> forall i :: 0 <= i < |s.wire| - 1 ==> !Hazard(s.wire[i])
  }

  predicate ErrorFree(s: State) {
    s.have ==> forall i :: 0 <= i < |s.wire| ==> !s.wire[i].Failed?
  }

  lemma AheadMoved(info: CmdInfo)
    requires info.Multiple? && info.idx < |info.counts|
    ensures Ahead(MoveCursor(info)) == (if Ahead(info) == [] then [] else Ahead(info)[1..])
    ensures Ahead(info) != [] ==> info.counts[info.idx + 1] == Ahead(info)[0]
  {
  }

  lemma PairedHead(counts: seq<int>, queue: seq<ResultSetId>)
    requires SetCount(counts) == |queue| && counts != []
    ensures var p := Paired(counts, queue);
            p != [] && (if counts[0] == RESULT_SET_VALUE
                        then queue != [] && SetCount(counts[1..]) == |queue[1..]|
                             && p[0] == SetEntry(queue[0]) && p[1..] == Paired(counts[1..], queue[1..])
                        else SetCount(counts[1..]) == |queue|
                             && p[0] == StatEntry(counts[0]) && p[1..] == Paired(counts[1..], queue))
  {
  }

  lemma QuietFuture(s: State)
    requires Aligned(s) && !s.have
    ensures Future(s) == Paired(Ahead(s.info), s.queue)
  {
    assert WireEntries([]) == [];
  }

  /** Without anything on the wire, a call shows the head of the future. */
  lemma AdvanceShows(s: State)
    requires Aligned(s) && !s.have && s.info != NoInfo
    ensures var (t, o) := Advance(s);
            Aligned(t) && !t.have && t.info != NoInfo && t.wire == s.wire && o != Threw
            && SeenAfter(t, o) == Ideal(Future(s)) && Future(t) == Rest(Future(s))
  {
    hide Paired, SetCount, Future, Ahead;
    var ahead := Ahead(s.info);
    AheadAtMove(s.info);
    QuietFuture(s);
    if ahead == [] {
      assert SetCount([]) == 0 && Paired([], []) == [] by { NothingPaired(); }
      assert s.queue == [];
    } else {
      PairedHead(ahead, s.queue);
    }
    var (t, o) := Advance(s);
    QuietFuture(t);
  }

  lemma NothingPaired()
    ensures SetCount([]) == 0 && Paired([], []) == []
  {
  }

  lemma AheadAtMove(info: CmdInfo)
    requires info != NoInfo
    ensures var moved := MoveCursor(info);
            if Ahead(info) == [] then Ahead(moved) == [] && !AtResultSet(moved) && LargeUpdateCount(moved) == -1
            else Ahead(moved) == Ahead(info)[1..] && LargeUpdateCount(moved) == Ahead(info)[0]
                 && (AtResultSet(moved) <==> Ahead(info)[0] == RESULT_SET_VALUE)
  {
    if info.Multiple? && info.idx < |info.counts| {
      AheadMoved(info);
    }
  }

  /** After a fetch the cursor moves on to what was fetched, unless its count looks like -1. */
  lemma AdvanceFetched(s: State)
    requires Draining(s) && |Ahead(s.info)| == 1
    requires Ahead(s.info)[0] >= 0 || Ahead(s.info)[0] == RESULT_SET_VALUE
    ensures var (t, o) := Advance(s);
            Inv(t) && t.wire == s.wire && o != Threw && SeenAfter(t, o) == Ideal(Future(s))
            && (t.have <==> s.have && !(Ahead(s.info)[0] >= 0 && Trunc32(Ahead(s.info)[0]) == -1))
            && (t.have == s.have ==> Future(t) == Rest(Future(s)))
  {
    AheadMoved(s.info);
    var n := Ahead(s.info)[0];
    assert Ahead(s.info) == [n] && [n][1..] == [];
    var (t, o) := Advance(s);
    assert SetCount([]) == 0 && SetCount([n]) == if n == RESULT_SET_VALUE then 1 else 0;
    assert t.queue == [] && Paired([], []) == [];
    assert Trunc32(-1) == -1;
    if n == RESULT_SET_VALUE {
      assert Paired([n], s.queue) == [SetEntry(s.queue[0])];
    } else {
      assert Paired([n], s.queue) == [StatEntry(n)];
    }
  }

  lemma SafeTail(s: State, t: State)
    requires Safe(s) && s.have && s.wire != [] && t.wire == s.wire[1..]
    ensures Safe(t)
  {
    forall i | 0 <= i < |t.wire| - 1 ensures !Hazard(t.wire[i]) {
      assert t.wire[i] == s.wire[i + 1];
    }
  }

  lemma ErrorFreeTail(s: State, t: State)
    requires ErrorFree(s) && s.have && s.wire != [] && t.wire == s.wire[1..]
    ensures ErrorFree(t)
  {
    forall i | 0 <= i < |t.wire| ensures !t.wire[i].Failed? {
      assert t.wire[i] == s.wire[i + 1];
    }
  }

  lemma FetchedOne(s: State)
    requires Inv(s) && s.have && !s.wire[0].Failed?
    ensures var t := FetchNext(s).0; var n := if s.wire[0].Count? then s.wire[0].affected else RESULT_SET_VALUE;
            t.info.Multiple? && Ahead(t.info) == [n] && t.have == (|s.wire| > 1)
  {
    assert Ahead(s.info) == [];
    var n := if s.wire[0].Count? then s.wire[0].affected else RESULT_SET_VALUE;
    AheadAppend(s.info.counts, s.info.idx, n);
    assert [] + [n] == [n];
  }

  /** The central step: whatever is on the wire, `getMoreResults` keeps the alignment and shows what comes next;
      it moves on by exactly one result unless a hazard makes it drop the wire, and an error is raised
      without losing anything that came before it. */
  lemma GetMoreResultsShows(s: State)
    requires Inv(s)
    ensures var (t, o) := GetMoreResults(s);
            Inv(t)
            && (if s.have && s.wire[0].Failed? then o == Threw && !t.have && Future(t) == Future(s)
                else SeenAfter(t, o) == Ideal(Future(s)) && o != Threw
                     && (Safe(s) ==> Future(t) == Rest(Future(s)) && (s.have && |s.wire| > 1 ==> t.have))
                     && (s.have ==> t.wire == s.wire[1..])
                     && (s.have && Hazard(s.wire[0]) ==> !t.have) && (!s.have ==> !t.have))
            && (Safe(s) ==> Safe(t)) && (ErrorFree(s) ==> ErrorFree(t))
  {
    hide Future, Ideal, Rest, Aligned, Advance, FetchNext, Ahead;
    if s.have {
      InvIsDraining(s);
      FetchKeepsFuture(s);
      var (t, threw) := FetchNext(s);
      if threw {
        ThrownInv(s);
      } else {
        FetchedOne(s);
        AdvanceFetched(t);
        if Safe(s) {
          SafeTail(s, Advance(t).0);
        }
        if ErrorFree(s) {
          ErrorFreeTail(s, Advance(t).0);
        }
      }
    } else {
      AdvanceShows(s);
    }
  }

  lemma ThrownInv(s: State)
    requires Inv(s) && s.have && s.wire[0].Failed?
    ensures Inv(FetchNext(s).0)
  {
    InvIsDraining(s);
    FetchKeepsFuture(s);
  }

  // ---------------------------------------------------------------- many calls

  ghost function Observe(s: State, n: nat): (r: seq<Seen>)
    requires Inv(s)
    ensures |r| == n
    decreases n
  {
    if n == 0 then []
    else
      GetMoreResultsShows(s);
      var (t, o) := GetMoreResults(s);
      [SeenAfter(t, o)] + Observe(t, n - 1)
  }

  function IdealSeen(future: seq<Entry>, n: nat): seq<Seen> {
    if n == 0 then [] else [Ideal(future)] + IdealSeen(Rest(future), n - 1)
  }

  /** Lazy fetching shows exactly what is to come. */
  lemma {:induction false} LazyIsIdeal(s: State, n: nat)
    requires Inv(s) && ErrorFree(s) && Safe(s)
    ensures Observe(s, n) == IdealSeen(Future(s), n)
    decreases n
  {
    hide Future, GetMoreResults, Ideal, Rest, Safe, Aligned, GoodWire;
    if n > 0 {
      GetMoreResultsShows(s);
      LazyIsIdeal(GetMoreResults(s).0, n - 1);
    }
  }

  lemma LoadFullyKeeps(s: State)
    requires Inv(s)
    ensures var (t, threw) := LoadFully(s);
            Inv(t) && Future(t) == Future(s) && !t.have && (threw <==> s.have && EndsInError(s.wire))
            && (s.have ==> t.wire == [] && (threw <==> t.caching)) && t.current == s.current
  {
    hide Future, Drain, Aligned;
    if s.have {
      var c := s.(caching := true);
      assert Future(c) == Future(s) && Draining(c) by { CachingIsInvisible(s); }
      DrainKeepsFuture(c);
      DrainedInv(Drain(c).0);
    }
  }

  lemma CachingIsInvisible(s: State)
    requires Inv(s) && s.have
    ensures var c := s.(caching := true); Draining(c) && Future(c) == Future(s)
  {
  }

  lemma DrainedInv(t: State)
    requires Draining(t) && t.wire == []
    ensures Inv(t)
  {
  }

  /** Once drained, the results show what was to come before the drain, errors and hazards included. */
  lemma DrainedIsIdeal(s: State, n: nat)
    requires Inv(s)
    ensures Inv(LoadFully(s).0) && Observe(LoadFully(s).0, n) == IdealSeen(Future(s), n)
  {
    LoadFullyKeeps(s);
    LazyIsIdeal(LoadFully(s).0, n);
  }

  lemma {:induction false} LostAfterHazard(s: State, k: nat)
    requires Inv(s) && ErrorFree(s) && s.have && k < |s.wire| - 1 && Hazard(s.wire[k])
    requires forall i :: 0 <= i < k ==> !Hazard(s.wire[i])
    ensures Observe(s, k + 2)[k + 1] == Seen(false, None, -1)
    decreases k
  {
    hide Future, GetMoreResults, Ideal, Aligned, GoodWire, Safe;
    GetMoreResultsShows(s);
    var t := GetMoreResults(s).0;
    if k == 0 {
      StepBehindHazard(s);
      ObserveOne(t);
      assert Observe(s, 2)[1] == Observe(t, 1)[0];
    } else {
      KeepsOnFetching(s);
      assert forall i :: 0 <= i < |t.wire| ==> t.wire[i] == s.wire[i + 1];
      LostAfterHazard(t, k - 1);
    }
  }

  lemma ObserveOne(t: State)
    requires Inv(t)
    ensures var (u, o) := GetMoreResults(t); Observe(t, 1) == [SeenAfter(u, o)]
  {
    GetMoreResultsShows(t);
    assert Observe(GetMoreResults(t).0, 0) == [];
  }

  /** Right behind a dropped wire the driver answers that there is nothing more. */
  lemma StepBehindHazard(s: State)
    requires Inv(s) && s.have && |s.wire| > 1 && Hazard(s.wire[0])
    ensures var t := GetMoreResults(s).0;
            Inv(t) && !t.have && Future(t) == []
            && SeenAfter(GetMoreResults(t).0, GetMoreResults(t).1) == Seen(false, None, -1)
  {
    InvIsDraining(s);
    FetchKeepsFuture(s);
    FetchedOne(s);
    var f := FetchNext(s).0;
    AdvanceFetched(f);
    AheadMoved(f.info);
    GetMoreResultsShows(s);
    var t := GetMoreResults(s).0;
    assert Ahead(t.info) == [] && WireEntries([]) == [];
    GetMoreResultsShows(t);
  }

  lemma KeepsOnFetching(s: State)
    requires Inv(s) && s.have && |s.wire| > 1 && !Hazard(s.wire[0]) && !s.wire[0].Failed?
    ensures var t := GetMoreResults(s).0; t.have && t.wire == s.wire[1..]
  {
    InvIsDraining(s);
    FetchKeepsFuture(s);
    FetchedOne(s);
    AdvanceFetched(FetchNext(s).0);
  }

  lemma {:induction false} IdealAt(future: seq<Entry>, n: nat, k: nat)
    requires k < n && k < |future|
    ensures |IdealSeen(future, n)| == n && IdealSeen(future, n)[k] == Ideal(future[k..])
    decreases n
  {
    IdealLength(future, n);
    if k > 0 {
      IdealAt(future[1..], n - 1, k - 1);
      assert future[1..][k - 1..] == future[k..];
    } else {
      assert future[0..] == future;
    }
  }

  lemma {:induction false} IdealLength(future: seq<Entry>, n: nat)
    ensures |IdealSeen(future, n)| == n
  {
    if n > 0 {
      IdealLength(Rest(future), n - 1);
    }
  }

  lemma {:induction false} WireEntryAt(wire: seq<Packet>, k: nat)
    requires k < |wire| && forall i :: 0 <= i < |wire| ==> !wire[i].Failed?
    ensures |WireEntries(wire)| == |wire| && WireEntries(wire)[k] == PacketEntries(wire[k])[0]
  {
    if k > 0 {
      WireEntryAt(wire[1..], k - 1);
    } else if |wire| > 1 {
      WireEntryAt(wire[1..], 0);
    } else {
      assert wire[1..] == [] && WireEntries(wire[1..]) == [];
    }
  }

  /** Draining early goes unnoticed by all later calls exactly when no count on the wire, other than the last
      packet, has -1 as its 32-bit form. */
  lemma DrainUnnoticedIff(s: State)
    requires Inv(s) && ErrorFree(s)
    ensures Inv(LoadFully(s).0)
    ensures (forall n: nat :: Observe(s, n) == Observe(LoadFully(s).0, n)) <==> Safe(s)
  {
    LoadFullyKeeps(s);
    if Safe(s) {
      forall n: nat ensures Observe(s, n) == Observe(LoadFully(s).0, n) {
        LazyIsIdeal(s, n);
        DrainedIsIdeal(s, n);
      }
    } else {
      var k := FirstHazard(s.wire);
      HazardShows(s, k);
    }
  }

  lemma FirstHazard(wire: seq<Packet>) returns (k: nat)
    requires exists i :: 0 <= i < |wire| - 1 && Hazard(wire[i])
    ensures k < |wire| - 1 && Hazard(wire[k]) && forall i :: 0 <= i < k ==> !Hazard(wire[i])
  {
    k := 0;
    while !Hazard(wire[k])
      invariant k < |wire| - 1
      invariant forall i :: 0 <= i < k ==> !Hazard(wire[i])
      decreases |wire| - k
    {
      k := k + 1;
    }
  }

  lemma HazardShows(s: State, k: nat)
    requires Inv(s) && ErrorFree(s) && s.have && k < |s.wire| - 1 && Hazard(s.wire[k])
    requires forall i :: 0 <= i < k ==> !Hazard(s.wire[i])
    ensures Inv(LoadFully(s).0) && Observe(s, k + 2) != Observe(LoadFully(s).0, k + 2)
  {
    hide Observe, IdealSeen, LoadFully, Future, WireEntries, Hazard, Aligned;
    LostAfterHazard(s, k);
    DrainedIsIdeal(s, k + 2);
    WireEntryAt(s.wire, k + 1);
    PendingFuture(s);
    IdealAt(Future(s), k + 2, k + 1);
    assert Future(s)[k + 1..][0] == Future(s)[k + 1];
  }

  lemma PendingFuture(s: State)
    requires Inv(s) && s.have
    ensures Future(s) == WireEntries(s.wire)
  {
    assert Ahead(s.info) == [];
  }

  /** The smallest loss: one count of 2^32 - 1 before a result set. */
  lemma HazardExample()
    ensures var s := Execute([Count(0), Count(0xFFFF_FFFF), Rows(7)]).0;
            Inv(s) && !Safe(s) && Inv(LoadFully(s).0) && Observe(s, 2) != Observe(LoadFully(s).0, 2)
  {
    var wire := [Count(0), Count(0xFFFF_FFFF), Rows(7)];
    var s := Execute(wire).0;
    assert wire[1..] == [Count(0xFFFF_FFFF), Rows(7)];
    assert s.wire == wire[1..] && s.have && s.info == Multiple([0], 0);
    assert Ahead(s.info) == [];
    assert s.wire[0] == Count(0xFFFF_FFFF) && s.wire[1] == Rows(7) && |s.wire| == 2;
    assert Hazard(s.wire[0]);
    HazardShows(s, 0);
  }

  /** With an error at its end, lazy fetching raises it once, after everything before it has been shown, and then
      goes on as the drained results would. */
  lemma {:induction false} LazyWithError(s: State, n: nat)
    requires Inv(s) && Safe(s) && s.have && EndsInError(s.wire) && n >= |s.wire|
    ensures var k := |s.wire| - 1; var future := Future(s);
            k <= |future| && Observe(s, n) == IdealSeen(future, k) + [Raised] + IdealSeen(future[k..], n - k - 1)
    decreases n
  {
    hide GetMoreResults, Ideal, Safe, Aligned, GoodWire, Future, Observe, IdealSeen;
    GetMoreResultsShows(s);
    ObserveFirst(s, n);
    var t := GetMoreResults(s).0;
    var k, future := |s.wire| - 1, Future(s);
    if k == 0 {
      LazyIsIdeal(t, n - 1);
      assert future[0..] == future;
      assert IdealSeen(future, 0) == [] by { IdealLength(future, 0); }
      assert Observe(s, n) == [] + [Raised] + IdealSeen(future, n - 1);
    } else {
      assert !s.wire[0].Failed? by { OnlyLastFails(s); }
      LazyWithError(t, n - 1);
      FutureNonEmpty(s);
      IdealFirst(future, k);
      assert future[1..][k - 1..] == future[k..];
      var more := [Raised] + IdealSeen(future[k..], n - k - 1);
      assert Observe(t, n - 1) == IdealSeen(future[1..], k - 1) + more;
      assert [Ideal(future)] + (IdealSeen(future[1..], k - 1) + more) == IdealSeen(future, k) + more;
    }
  }

  lemma ObserveFirst(s: State, n: nat)
    requires Inv(s) && n > 0
    ensures var (t, o) := GetMoreResults(s); Inv(t) && Observe(s, n) == [SeenAfter(t, o)] + Observe(t, n - 1)
  {
    GetMoreResultsShows(s);
  }

  lemma IdealFirst(future: seq<Entry>, n: nat)
    requires n > 0
    ensures IdealSeen(future, n) == [Ideal(future)] + IdealSeen(Rest(future), n - 1)
  {
  }

  lemma OnlyLastFails(s: State)
    requires Inv(s) && |s.wire| > 1
    ensures !s.wire[0].Failed?
  {
  }

  lemma FutureNonEmpty(s: State)
    requires Inv(s) && s.have
    ensures Future(s) != []
  {
    assert WireEntries(s.wire) != [];
  }

  // ---------------------------------------------------------------- whole runs

  function Sets(entries: seq<Entry>): seq<ResultSetId> {
    if entries == [] then []
    else (match entries[0] case SetEntry(rs) => [rs] case StatEntry(_) => []) + Sets(entries[1..])
  }

  /** The calls that may come in any order after the command was executed. */
  datatype Call = More | Load | GiveAway | Leave(rs: ResultSetId) | OtherCommand

  function Do(s: State, c: Call): State
    requires s.have ==> s.wire != []
  {
    match c
    case More => GetMoreResults(s).0
    case Load => LoadFully(s).0
    case GiveAway => Release(s)
    case Leave(rs) => CheckOut(s, rs)
    case OtherCommand => CmdPrologue(s).0
  }

  function NewlyShown(s: State, c: Call): seq<ResultSetId>
    requires s.have ==> s.wire != []
  {
    if c.More? then
      var (t, o) := GetMoreResults(s);
      if o == Answer(true) && t.current.Some? then [t.current.value] else []
    else []
  }

  lemma DoKeeps(s: State, c: Call)
    requires Inv(s)
    ensures Inv(Do(s, c)) && (Safe(s) ==> Safe(Do(s, c)))
    ensures Safe(s) ==> NewlyShown(s, c) + Sets(Future(Do(s, c))) == Sets(Future(s))
  {
    hide Future, GetMoreResults, LoadFully, Aligned, GoodWire, Sets;
    match c
    case More =>
      GetMoreResultsShows(s);
      if Safe(s) {
        MoreConserves(s);
      }
    case Load =>
      LoadFullyKeeps(s);
    case GiveAway =>
      OtherFieldsAreInvisible(s, Release(s));
    case Leave(rs) =>
      OtherFieldsAreInvisible(s, CheckOut(s, rs));
    case OtherCommand =>
      if s.active {
        LoadFullyKeeps(s);
        OtherFieldsAreInvisible(LoadFully(s).0, CmdPrologue(s).0);
      }
  }

  lemma OtherFieldsAreInvisible(s: State, t: State)
    requires Inv(s) && t.info == s.info && t.queue == s.queue && t.have == s.have && t.wire == s.wire
    ensures Inv(t) && Future(t) == Future(s) && (Safe(s) ==> Safe(t))
  {
  }

  lemma MoreConserves(s: State)
    requires Inv(s) && Safe(s) && Inv(Do(s, More))
    ensures NewlyShown(s, More) + Sets(Future(Do(s, More))) == Sets(Future(s))
  {
    hide GetMoreResults, Future, Aligned, GoodWire, Safe;
    GetMoreResultsShows(s);
    assert [] + Sets(Future(s)) == Sets(Future(s));
  }

  ghost function RunAll(s: State, calls: seq<Call>): State
    requires Inv(s)
    decreases calls
  {
    if calls == [] then s
    else
      DoKeeps(s, calls[0]);
      RunAll(Do(s, calls[0]), calls[1..])
  }

  ghost function Shown(s: State, calls: seq<Call>): seq<ResultSetId>
    requires Inv(s)
    decreases calls
  {
    if calls == [] then []
    else
      DoKeeps(s, calls[0]);
      NewlyShown(s, calls[0]) + Shown(Do(s, calls[0]), calls[1..])
  }

  /** In every run the statistics stay aligned with the queue, and the result sets shown, followed by those still to
      come, are the ones that were to come at the start: none is lost, repeated or out of order. */
  lemma {:induction false} RunConserves(s: State, calls: seq<Call>)
    requires Inv(s) && Safe(s)
    ensures Inv(RunAll(s, calls)) && Shown(s, calls) + Sets(Future(RunAll(s, calls))) == Sets(Future(s))
    decreases calls
  {
    hide Future, Do, NewlyShown, Aligned, GoodWire, Safe, Sets;
    if calls != [] {
      DoKeeps(s, calls[0]);
      var t := Do(s, calls[0]);
      RunConserves(t, calls[1..]);
      assert NewlyShown(s, calls[0]) + (Shown(t, calls[1..]) + Sets(Future(RunAll(t, calls[1..]))))
        == Shown(s, calls) + Sets(Future(RunAll(s, calls)));
    } else {
      assert [] + Sets(Future(s)) == Sets(Future(s));
    }
  }

  /** Alignment needs no assumption on the counts. */
  lemma {:induction false} RunStaysAligned(s: State, calls: seq<Call>)
    requires Inv(s)
    ensures Inv(RunAll(s, calls)) && Aligned(RunAll(s, calls))
    decreases calls
  {
    if calls != [] {
      DoKeeps(s, calls[0]);
      RunStaysAligned(Do(s, calls[0]), calls[1..]);
    }
  }

  // ---------------------------------------------------------------- what getResultSet answers

  lemma {:induction false} RunAllLast(s: State, calls: seq<Call>)
    requires Inv(s) && calls != []
    ensures var n := |calls| - 1;
            Inv(RunAll(s, calls[..n])) && RunAll(s, calls) == Do(RunAll(s, calls[..n]), calls[n])
    decreases calls
  {
    hide Do, Aligned, GoodWire, Future;
    var n := |calls| - 1;
    RunStaysAligned(s, calls[..n]);
    if n == 0 {
      assert calls[..0] == [] && calls[1..] == [];
      DoKeeps(s, calls[0]);
    } else {
      DoKeeps(s, calls[0]);
      var t := Do(s, calls[0]);
      assert calls[..n][1..] == calls[1..][..n - 1] && calls[..n][0] == calls[0];
      RunAllLast(t, calls[1..]);
    }
  }

  /** What one call does to the result set that was handed out. */
  lemma DoGiven(s: State, c: Call)
    requires Inv(s)
    ensures c.GiveAway? ==> Do(s, c).given == s.current && Do(s, c).current == None
    ensures c.Leave? ==> Do(s, c).given == if s.given == Some(c.rs) then None else s.given
    ensures !c.GiveAway? && !c.Leave? ==> Do(s, c).given == s.given
    ensures !c.GiveAway? && !c.More? ==> Do(s, c).current == s.current
  {
    hide Future, Aligned, GoodWire, FetchNext, Drain;
    if s.have {
      InvIsDraining(s);
      FetchKeepsFuture(s);
      CachingIsInvisible(s);
      DrainKeepsFuture(s.(caching := true));
    }
  }

  /** The position after the last time a result set was handed out, or 0. */
  function SinceGiven(calls: seq<Call>): (p: nat)
    ensures p <= |calls| && (p > 0 ==> calls[p - 1].GiveAway?)
    ensures forall q :: p <= q < |calls| ==> !calls[q].GiveAway?
  {
    if calls == [] then 0
    else if calls[|calls| - 1].GiveAway? then |calls|
    else SinceGiven(calls[..|calls| - 1])
  }

  ghost predicate Left(calls: seq<Call>, from: nat, rs: ResultSetId) {
    exists q :: from <= q < |calls| && calls[q] == Leave(rs)
  }

  /** In every run: the result set handed out last counts as handed out until it is checked out itself; others checked
      out meanwhile do not matter. */
  lemma {:induction false} RunGiven(s: State, calls: seq<Call>)
    requires Inv(s)
    ensures var p := SinceGiven(calls);
            var handed := if p == 0 then s.given else RunAll(s, calls[..p - 1]).current;
            RunAll(s, calls).given == if handed.Some? && Left(calls, p, handed.value) then None else handed
    decreases calls
  {
    hide Do, Aligned, GoodWire, Future;
    if calls != [] {
      var n := |calls| - 1;
      var front, last := calls[..n], calls[n];
      RunAllLast(s, calls);
      DoGiven(RunAll(s, front), last);
      if !last.GiveAway? {
        RunGiven(s, front);
        var p := SinceGiven(calls);
        assert p > 0 ==> front[..p - 1] == calls[..p - 1];
        forall rs ensures Left(calls, p, rs) <==> Left(front, p, rs) || last == Leave(rs) {
          LeftLast(calls, p, rs);
        }
      }
    }
  }

  lemma LeftLast(calls: seq<Call>, p: nat, rs: ResultSetId)
    requires calls != [] && p < |calls|
    ensures Left(calls, p, rs) <==> Left(calls[..|calls| - 1], p, rs) || calls[|calls| - 1] == Leave(rs)
  {
    var front := calls[..|calls| - 1];
    if Left(calls, p, rs) {
      var q :| p <= q < |calls| && calls[q] == Leave(rs);
      assert q < |front| ==> front[q] == calls[q];
    }
    if Left(front, p, rs) {
      var q :| p <= q < |front| && front[q] == Leave(rs);
      assert calls[q] == front[q];
    }
  }

  /** So `getResultSet` answers the current result set or, without one, the one handed out last unless it was checked
      out; a result set that is neither can come and go without changing the answer. */
  lemma RunVisible(s: State, calls: seq<Call>, rs: ResultSetId)
    requires Inv(s)
    ensures var t := RunAll(s, calls);
            Inv(t) && (t.current.Some? ==> Visible(t) == t.current) && (t.current == None ==> Visible(t) == t.given)
            && (Visible(t) != Some(rs) ==> Visible(Do(t, Leave(rs))) == Visible(t))
            && Visible(Do(t, GiveAway)) == t.current
  {
    hide Do, Aligned, GoodWire, Future, RunAll;
    RunStaysAligned(s, calls);
    DoGiven(RunAll(s, calls), Leave(rs));
    DoGiven(RunAll(s, calls), GiveAway);
  }

  /** `commandEnd` shows the first result set in the queue if the statistics stand at a result set, and else none. */
  lemma CommandEndShows(s: State)
    requires s.info.Multiple? ==> s.info.idx < |s.info.counts|
    ensures var atSet := (s.info.Single? && s.info.count == -1)
                         || (s.info.Multiple? && s.info.counts[s.info.idx] == -1);
            var t := CommandEnd(s);
            if atSet && s.queue != [] then t.current == Some(s.queue[0]) && t.queue == s.queue[1..]
            else t.current == None && t.queue == s.queue
  {
  }

  // ---------------------------------------------------------------- registration

  /** Results are registered only as long as they know of something on the wire. */
  lemma DoRegistered(s: State, c: Call)
    requires Inv(s) && (s.active ==> s.have)
    ensures var t := Do(s, c); t.active ==> t.have
  {
    hide Drain, Aligned, GoodWire, Future, GetMoreResults;
    if c.More? {
      MoreRegistered(s);
    } else if s.have {
      DrainRegistered(s.(caching := true));
    }
  }

  lemma MoreRegistered(s: State)
    requires (s.have ==> s.wire != []) && (s.active ==> s.have)
    ensures var t := GetMoreResults(s).0; t.active ==> t.have
  {
  }

  lemma {:induction false} DrainRegistered(s: State)
    ensures var t := Drain(s).0; s.have && s.wire != [] ==> !t.active
    decreases |s.wire|
  {
    if s.wire != [] {
      var (t, threw) := FetchNext(s);
      if !threw && t.wire != [] {
        DrainRegistered(t);
      }
    }
  }

  lemma {:induction false} RunRegistered(s: State, calls: seq<Call>)
    requires Inv(s) && (s.active ==> s.have)
    ensures var t := RunAll(s, calls); t.active ==> t.have
    decreases calls
  {
    hide Do, Aligned, GoodWire, Future;
    if calls != [] {
      DoKeeps(s, calls[0]);
      DoRegistered(s, calls[0]);
      RunRegistered(Do(s, calls[0]), calls[1..]);
    }
  }

  /** After every run, discarding leaves no registered stream and changes nothing that the application sees. */
  lemma DiscardUnregisters(s: State, calls: seq<Call>)
    requires Inv(s) && (s.active ==> s.have)
    ensures var t := RunAll(s, calls);
            !Discard(t).active && Visible(Discard(t)) == Visible(t) && Discard(t).info == t.info
            && Discard(t).queue == t.queue && (t.have ==> Discard(t).wire == [])
  {
    hide RunAll, Aligned, GoodWire;
    RunStaysAligned(s, calls);
    RunRegistered(s, calls);
  }

  /** The counts that pass for -1: those that leave 2^32 - 1 when divided by 2^32. */
  lemma HazardIs(p: Packet)
    ensures Hazard(p) <==> p.Count? && p.affected % 0x1_0000_0000 == 0xFFFF_FFFF
  {
  }

  /** An error is raised once and noted twice, with the count that JDBC gives to a failed statement. */
  lemma ErrorExample()
    ensures var s := Execute([Count(5), Failed]).0;
            var (t, o) := GetMoreResults(s);
            var (u, o1) := GetMoreResults(t);
            var (w, o2) := GetMoreResults(u);
            LargeUpdateCount(s.info) == 5 && o == Threw && o1 == Answer(false) && LargeUpdateCount(u.info) == -3
            && o2 == Answer(false) && LargeUpdateCount(w.info) == -3 && LargeUpdateCount(GetMoreResults(w).0.info) == -1
  {
    var wire := [Count(5), Failed];
    var s := Execute(wire).0;
    assert wire[1..] == [Failed];
    assert s.info == Multiple([5], 0) && s.have && s.wire == [Failed];
    var t := GetMoreResults(s).0;
    assert t.info == Multiple([5, -3, -3], 0) && !t.have;
  }

  /** Executing a command shows its first result and leaves all the others to come. */
  lemma ExecuteStarts(wire: seq<Packet>)
    requires wire != [] && GoodWire(wire)
    ensures var (s, threw) := Execute(wire);
            (threw <==> wire[0].Failed?)
            && (!threw ==>
                  (Inv(s) && Future(s) == WireEntries(wire[1..])
                   && s.current == (if wire[0].Rows? then Some(wire[0].rs) else None)
                   && LargeUpdateCount(s.info) == (if wire[0].Rows? then -1 else wire[0].affected)
                   && (s.active <==> wire[0].Rows? && |wire| > 1)))
  {
    assert forall i :: 0 <= i < |wire[1..]| ==> wire[1..][i] == wire[i + 1];
    var s := Execute(wire).0;
    assert SetCount([]) == 0 && Paired([], []) == [];
    assert [] + WireEntries(wire[1..]) == WireEntries(wire[1..]);
    assert |wire| == 1 ==> wire[1..] == [];
    if s.info.Multiple? {
      assert Ahead(s.info) == [];
    }
    assert s.current.Some? ==> ([] + [wire[0].rs])[1..] == [];
  }

  // ---------------------------------------------------------------- the next command on the connection

  /** The flag tells whether there is something on the wire. */
  predicate Intact(s: State) {
    s.have <==> s.wire != []
  }

  /** A call that fetches a count of -1 in 32 bits with more behind it. */
  predicate Drops(s: State, c: Call) {
    c.More? && s.have && |s.wire| > 1 && Hazard(s.wire[0])
  }

  /** Some call of the run does so. */
  ghost predicate DropsInRun(s: State, calls: seq<Call>)
    requires Inv(s)
    decreases calls
  {
    calls != [] && (DoKeeps(s, calls[0]); Drops(s, calls[0]) || DropsInRun(Do(s, calls[0]), calls[1..]))
  }

  lemma DoKeepsIntact(s: State, c: Call)
    requires Inv(s) && Intact(s)
    ensures Intact(Do(s, c)) <==> !Drops(s, c)
    ensures Drops(s, c) ==> !Do(s, c).have && Do(s, c).wire != []
  {
    hide Future, Aligned, GoodWire, Drain, FetchNext, Advance, Hazard;
    match c
    case More => MoreKeepsIntact(s);
    case Load => LoadFullyKeeps(s);
    case GiveAway =>
    case Leave(_) =>
    case OtherCommand => LoadFullyKeeps(s);
  }

  lemma MoreKeepsIntact(s: State)
    requires Inv(s) && Intact(s)
    ensures var t := GetMoreResults(s).0;
            (Intact(t) <==> !Drops(s, More)) && (Drops(s, More) ==> !t.have && t.wire != [])
  {
    hide Future, Aligned, GoodWire, FetchNext, Advance, Safe, Hazard;
    GetMoreResultsShows(s);
    if s.have {
      InvIsDraining(s);
      FetchKeepsFuture(s);
      OnlyLastMayFail(s);
      if |s.wire| > 1 && !Hazard(s.wire[0]) {
        KeepsOnFetching(s);
      }
    } else {
      AdvanceShows(s);
    }
  }

  lemma OnlyLastMayFail(s: State)
    requires Inv(s) && s.have
    ensures |s.wire| > 1 ==> !s.wire[0].Failed?
  {
  }

  /** What is dropped stays on the wire: nothing reads it any more. */
  lemma DroppedStays(s: State, c: Call)
    requires Inv(s) && !s.have
    ensures !Do(s, c).have && Do(s, c).wire == s.wire
  {
    hide Future, Aligned, GoodWire, Advance;
    if c.More? {
      AdvanceShows(s);
    }
  }

  lemma {:induction false} DroppedStaysInRun(s: State, calls: seq<Call>)
    requires Inv(s) && !s.have
    ensures !RunAll(s, calls).have && RunAll(s, calls).wire == s.wire
    decreases calls
  {
    hide Future, Do, Aligned, GoodWire;
    if calls != [] {
      DoKeeps(s, calls[0]);
      DroppedStays(s, calls[0]);
      DroppedStaysInRun(Do(s, calls[0]), calls[1..]);
    }
  }

  lemma {:induction false} RunIntactIff(s: State, calls: seq<Call>)
    requires Inv(s) && Intact(s)
    ensures Intact(RunAll(s, calls)) <==> !DropsInRun(s, calls)
    ensures RunAll(s, calls).have ==> Intact(RunAll(s, calls))
    decreases calls
  {
    hide Future, Do, Aligned, GoodWire, Drops;
    if calls != [] {
      DoKeeps(s, calls[0]);
      DoKeepsIntact(s, calls[0]);
      var t := Do(s, calls[0]);
      if Drops(s, calls[0]) {
        DroppedStaysInRun(t, calls[1..]);
      } else {
        RunIntactIff(t, calls[1..]);
      }
    }
  }

  lemma ExecuteIntact(wire: seq<Packet>)
    requires wire != [] && GoodWire(wire)
    ensures Intact(Execute(wire).0)
  {
  }

  /** For every executed command and every run of calls on its results: a command on the same statement, which destroys
      them first, finds an empty wire exactly if no call fetched a count of -1 in 32 bits with more behind it. */
  lemma SameStatementDrainsIff(wire: seq<Packet>, calls: seq<Call>)
    requires wire != [] && GoodWire(wire) && !wire[0].Failed?
    ensures var s := Execute(wire).0;
            Inv(s) && (Discard(RunAll(s, calls)).wire == [] <==> !DropsInRun(s, calls))
  {
    hide Execute, Future, Aligned, GoodWire, RunAll, DropsInRun;
    ExecuteStarts(wire);
    ExecuteIntact(wire);
    RunIntactIff(Execute(wire).0, calls);
  }

  lemma {:induction false} SafeNeverDrops(s: State, calls: seq<Call>)
    requires Inv(s) && Safe(s)
    ensures !DropsInRun(s, calls)
    decreases calls
  {
    hide Future, Do, Aligned, GoodWire;
    if calls != [] {
      DoKeeps(s, calls[0]);
      SafeNeverDrops(Do(s, calls[0]), calls[1..]);
    }
  }

  /** So it always does if no count before the last packet is -1 in 32 bits. */
  lemma SameStatementDrains(wire: seq<Packet>, calls: seq<Call>)
    requires wire != [] && GoodWire(wire) && !wire[0].Failed?
    requires forall i :: 0 <= i < |wire| - 1 ==> !Hazard(wire[i])
    ensures var s := Execute(wire).0; Inv(s) && Discard(RunAll(s, calls)).wire == []
  {
    hide Future, Aligned, GoodWire, RunAll, DropsInRun, Hazard;
    SameStatementDrainsIff(wire, calls);
    assert Safe(Execute(wire).0) by { ExecuteSafe(wire); }
    SafeNeverDrops(Execute(wire).0, calls);
  }

  lemma ExecuteSafe(wire: seq<Packet>)
    requires wire != [] && forall i :: 0 <= i < |wire| - 1 ==> !Hazard(wire[i])
    ensures Safe(Execute(wire).0)
  {
    hide Hazard;
    var s := Execute(wire).0;
    assert forall i :: 0 <= i < |wire[1..]| ==> wire[1..][i] == wire[i + 1];
  }

  /** After a count that does look like -1 even that command finds the rest of the old results. */
  lemma HazardStays()
    ensures var s := GetMoreResults(Execute([Count(0), Count(0xFFFF_FFFF), Rows(7)]).0).0;
            Discard(s).wire == [Rows(7)]
  {
  }

  lemma {:induction false} ThrownIsUnregistered(s: State)
    ensures Drain(s).1 ==> !Drain(s).0.active
    decreases |s.wire|
  {
    if s.wire != [] && !FetchNext(s).1 {
      ThrownIsUnregistered(FetchNext(s).0);
    }
  }

  /** A command of another statement finds an empty wire exactly if nothing was on it or these results know of it and
      are registered as the active stream. In any case they are not registered any more. */
  lemma OtherStatementDrainsIff(s: State)
    requires Inv(s)
    ensures CmdPrologue(s).0.wire == [] <==> s.wire == [] || (s.have && s.active)
    ensures !CmdPrologue(s).0.active
  {
    hide Drain;
    LoadFullyKeeps(s);
    ThrownIsUnregistered(s.(caching := true));
  }

  /** Results get registered only by a result set that has others behind it, not by an update count. */
  lemma Registration(s: State)
    requires Inv(s) && s.have && |s.wire| > 1 && !Hazard(s.wire[0])
    ensures GetMoreResults(s).0.active <==> s.active || s.wire[0].Rows?
  {
    hide Future;
    OnlyLastFails(s);
    InvIsDraining(s);
    FetchKeepsFuture(s);
    FetchedOne(s);
    AdvanceFetched(FetchNext(s).0);
  }

  /** So a command that starts with an update count leaves its later results in the way of another statement, though
      not of its own. */
  lemma UnregisteredExample()
    ensures var s := Execute([Count(1), Rows(7)]).0;
            Inv(s) && s.have && CmdPrologue(s).0.wire == [Rows(7)] && Discard(s).wire == []
  {
    assert [Count(1), Rows(7)][1..] == [Rows(7)];
  }

  /** Closing the statement lets go of the results without skipping anything: only the destructor of the statement does,
      and until then another statement finds the rest of an unregistered stream. */
  lemma ClosedStatement(s: State)
    requires Inv(s)
    ensures DestroyResults(s, false) == s
    ensures DestroyStatement(s, false).wire == [] <==> s.have || s.wire == []
    ensures CmdPrologue(DestroyResults(s, false)).0.wire == [] <==> s.wire == [] || (s.have && s.active)
  {
    hide CmdPrologue;
    OtherStatementDrainsIff(s);
  }
}
