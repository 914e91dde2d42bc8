/** The results of one non-batch, non-streaming command as a function of its packets: `Results`, the statistics of
    `CmdInformationSingle` and `CmdInformationMultiple`, and the reading side of `QueryProtocol`. */
module MultiResults {
  import opened Text

  type ResultSetId = nat

  const RESULT_SET_VALUE: int := -1
  const EXECUTE_FAILED: int := -3

  /** What the server sends for one statement of the command; nothing follows an error. */
  datatype Packet = Count(affected: int) | Rows(rs: ResultSetId) | Failed

  datatype CmdInfo = NoInfo | Single(count: int) | Multiple(counts: seq<int>, idx: nat)

  datatype State = State(
    info: CmdInfo,                    // cmdInformation
    queue: seq<ResultSetId>,          // executionResults
    current: Option<ResultSetId>,     // resultSet
    given: Option<ResultSetId>,       // given2appRs
    have: bool,                       // haveResultInWire
    caching: bool,                    // cachingLocally
    wire: seq<Packet>,                // still to be read from the server
    active: bool)                     // the connection's activeStreamingResult is this one

  /** `static_cast<int32_t>` of a 64-bit count. */
  function Trunc32(n: int): int {
    (n + 0x8000_0000) % 0x1_0000_0000 - 0x8000_0000
  }

  // ---------------------------------------------------------------- statistics

  function AddStat(info: CmdInfo, n: int, more: bool): CmdInfo {
    match info
    case NoInfo => if more then Multiple([n], 0) else Single(n)
    case Single(count) => Single(count)
    case Multiple(counts, idx) => Multiple(counts + [n], idx)
  }

  function IsCurrentUpdateCount(info: CmdInfo): bool
    requires info.Multiple? ==> info.idx < |info.counts|
  {
    match info
    case NoInfo => false
    case Single(count) => count != RESULT_SET_VALUE
    case Multiple(counts, idx) => counts[idx] != RESULT_SET_VALUE
  }

  /** `moreResults`: the cursor moves on in any case. */
  function MoveCursor(info: CmdInfo): CmdInfo {
    match info
    case NoInfo => NoInfo
    case Single(_) => Single(RESULT_SET_VALUE)
    case Multiple(counts, idx) => Multiple(counts, idx + 1)
  }

  function AtResultSet(moved: CmdInfo): bool {
    moved.Multiple? && moved.idx < |moved.counts| && moved.counts[moved.idx] == RESULT_SET_VALUE
  }

  function LargeUpdateCount(info: CmdInfo): int {
    match info
    case NoInfo => -1
    case Single(count) => count
    case Multiple(counts, idx) => if idx < |counts| then counts[idx] else -1
  }

  function UpdateCount(info: CmdInfo): int {
    Trunc32(LargeUpdateCount(info))
  }

  // ---------------------------------------------------------------- reading

  function Noted(s: State, more: bool): State {
    s.(have := more, active := s.active && (!s.have || more))
  }

  function AddStats(s: State, n: int, more: bool): State {
    Noted(s, more).(info := AddStat(s.info, n, more))
  }

  function AddResultSet(s: State, rs: ResultSetId, more: bool): State {
    Noted(s, more).(info := AddStat(s.info, RESULT_SET_VALUE, more), queue := s.queue + [rs])
  }

  function AddStatsError(s: State): State {
    Noted(s, false).(info := AddStat(s.info, EXECUTE_FAILED, false), active := false)
  }

  /** `getResult`; the flag says whether it throws. */
  function GetResult(s: State): (r: (State, bool))
    requires s.wire != []
    ensures |r.0.wire| < |s.wire|
  {
    var rest := s.(wire := s.wire[1..]);
    var more := |s.wire| > 1;
    match s.wire[0]
    case Count(n) => (AddStats(rest, n, more), false)
    case Rows(rs) =>
      var t := AddResultSet(rest, rs, more);
      (if more then t.(active := true) else t, false)
    case Failed => (AddStatsError(rest.(wire := [])), true)
  }

  /** `moveToNextResult`: an error packet is noted here already, and again when it is read. */
  function MoveToNextResult(s: State): (r: State)
    requires s.wire != []
    ensures r.wire == s.wire
  {
    if s.wire[0].Failed? then AddStatsError(s) else s
  }

  function FetchNext(s: State): (State, bool)
    requires s.wire != []
  {
    GetResult(MoveToNextResult(s))
  }

  function CommandEnd(s: State): State
    requires s.info.Multiple? ==> s.info.idx < |s.info.counts|
  {
    if s.info != NoInfo && s.queue != [] && !IsCurrentUpdateCount(s.info)
    then s.(current := Some(s.queue[0]), queue := s.queue[1..])
    else s.(current := None)
  }

  function Start(wire: seq<Packet>): State {
    State(NoInfo, [], None, None, false, false, wire, false)
  }

  /** `executeQuery` and `commandEnd` on a fresh `Results`. */
  function Execute(wire: seq<Packet>): (State, bool)
    requires wire != []
  {
    var (s, threw) := GetResult(Start(wire));
    if threw then (s, true) else (CommandEnd(s), false)
  }

  datatype Outcome = Answer(more: bool) | Threw

  function Advance(s: State): (State, Outcome) {
    var moved := s.(info := MoveCursor(s.info));
    if AtResultSet(moved.info) then
      var t := if moved.queue != [] then moved.(current := Some(moved.queue[0]), queue := moved.queue[1..]) else moved;
      (t, Answer(t.current.Some?))
    else
      var t := moved.(current := None);
      (if UpdateCount(t.info) == -1 && t.have then t.(have := false, active := false) else t, Answer(false))
  }

  function GetMoreResults(s: State): (State, Outcome)
    requires s.have ==> s.wire != []
  {
    if s.have then
      var (t, threw) := FetchNext(s);
      if threw then (t, Threw) else Advance(t)
    else Advance(s)
  }

  /** The drain loop of `loadFully(false)`. */
  function Drain(s: State): (State, bool)
    decreases |s.wire|
  {
    if s.wire == [] then (s.(caching := false, have := false), false)
    else
      var (t, threw) := FetchNext(s);
      if threw then (t, true) else Drain(t)
  }

  function LoadFully(s: State): (State, bool) {
    if s.have then Drain(s.(caching := true)) else (s, false)
  }

  function Release(s: State): State {
    s.(given := s.current, current := None)
  }

  /** `getResultSet`: the current result set or, without one, the one handed to the application. */
  function Visible(s: State): Option<ResultSetId> {
    if s.current.Some? then s.current else s.given
  }

  function CheckOut(s: State, leaving: ResultSetId): State {
    if s.given == Some(leaving) then s.(given := None) else s
  }

  /** `loadFully(true)`: whatever these results know to be on the wire is skipped, registered or not. */
  function Discard(s: State): State {
    if s.have && s.wire != [] then s.(wire := [], active := false) else s
  }

  /** `~Results`, as a command on the same statement causes it: results that belong to a statement are discarded, those
      of a closed statement belong to none. */
  function DestroyResults(s: State, attached: bool): State {
    if attached then Discard(s) else s
  }

  /** `~MariaDbStatement`, and with it `~Results`. */
  function DestroyStatement(s: State, attached: bool): State {
    DestroyResults(Discard(s), attached)
  }

  /** The prologue of a command drains the registered results. These are the results of another statement, since a
      statement has discarded its own by then. */
  function CmdPrologue(s: State): (State, bool) {
    if s.active then
      var (t, threw) := LoadFully(s);
      if threw then (t, true) else (t.(active := false), false)
    else (s, false)
  }

  // ---------------------------------------------------------------- the results still to come

  datatype Entry = SetEntry(rs: ResultSetId) | StatEntry(count: int)

  function SetCount(counts: seq<int>): nat {
    if counts == [] then 0 else (if counts[0] == RESULT_SET_VALUE then 1 else 0) + SetCount(counts[1..])
  }

  /** Statistics paired with the queued result sets, in order. */
  function Paired(counts: seq<int>, queue: seq<ResultSetId>): seq<Entry>
    requires SetCount(counts) == |queue|
  {
    if counts == [] then []
    else if counts[0] == RESULT_SET_VALUE then [SetEntry(queue[0])] + Paired(counts[1..], queue[1..])
    else [StatEntry(counts[0])] + Paired(counts[1..], queue)
  }

  function PacketEntries(p: Packet): seq<Entry> {
    match p
    case Count(n) => [StatEntry(n)]
    case Rows(rs) => [SetEntry(rs)]
    case Failed => [StatEntry(EXECUTE_FAILED), StatEntry(EXECUTE_FAILED)]
  }

  function WireEntries(wire: seq<Packet>): seq<Entry> {
    if wire == [] then [] else PacketEntries(wire[0]) + WireEntries(wire[1..])
  }

  function Ahead(info: CmdInfo): seq<int> {
    if info.Multiple? && info.idx < |info.counts| then info.counts[info.idx + 1..] else []
  }

  /** The statistics after the cursor and the queue of result sets are aligned. */
  predicate Aligned(s: State) {
    SetCount(Ahead(s.info)) == |s.queue|
  }

  /** Everything later calls may still show, in order. */
  function Future(s: State): seq<Entry>
    requires Aligned(s)
  {
    Paired(Ahead(s.info), s.queue) + WireEntries(if s.have then s.wire else [])
  }

  /** No count of -1, which would pass for a result set, and nothing after an error. */
  predicate GoodWire(wire: seq<Packet>) {
    forall i :: 0 <= i < |wire| ==>
      (wire[i].Count? ==> 0 <= wire[i].affected) && (wire[i].Failed? ==> i == |wire| - 1)
  }

  /** What holds between any two calls on the results of an executed command. */
  predicate Inv(s: State) {
    Aligned(s) && GoodWire(s.wire) && s.info != NoInfo
    && (s.have ==> s.wire != [] && s.info.Multiple? && s.info.idx == |s.info.counts| - 1 && s.queue == [])
  }
}
