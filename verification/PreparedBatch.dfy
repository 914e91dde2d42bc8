/** Parameters and batch rows of `ClientSidePreparedStatement`. */
module PreparedBatch {
  import opened Text

  type Row<T> = seq<Option<T>>

  /** `sent` lists the batches handed to the protocol. */
  datatype State<T> = State(parameters: Row<T>, rows: seq<Row<T>>, sent: seq<seq<Row<T>>>)

  /** A batch execution may stop before it sends: the statement is closed, or the prologue fails. */
  datatype Op<T> =
    | SetParameter(index: int, holder: T)
    | ClearParameters
    | AddBatch
    | ClearBatch
    | ExecuteBatch(stops: bool)

  predicate Complete<T>(row: Row<T>) {
    forall i :: 0 <= i < |row| ==> row[i].Some?
  }

  function Unset<T>(count: nat): (r: Row<T>)
    ensures |r| == count
  {
    seq(count, _ => None)
  }

  function Start<T>(count: nat): State<T> {
    State(Unset(count), [], [])
  }

  /** One call; the flag is false where the source throws. */
  function Step<T>(s: State<T>, op: Op<T>): (State<T>, bool) {
    match op
    case SetParameter(index, holder) =>
      if 1 <= index <= |s.parameters| then (s.(parameters := s.parameters[index - 1 := Some(holder)]), true)
      else (s, false)
    case ClearParameters => (s.(parameters := Unset(|s.parameters|)), true)
    case AddBatch => if Complete(s.parameters) then (s.(rows := s.rows + [s.parameters]), true) else (s, false)
    case ClearBatch => (s.(rows := []), true)
    case ExecuteBatch(stops) =>
      if s.rows == [] then (s, true)
      else if stops then (s, false)
      else (s.(sent := s.sent + [s.rows]), true)
  }

  /** A call is refused for an index out of range, for an unset parameter, or where it stops; then nothing changes. */
  lemma Refusals<T>(s: State<T>, op: Op<T>)
    ensures op.SetParameter? ==> (Step(s, op).1 <==> 1 <= op.index <= |s.parameters|)
    ensures op.AddBatch? ==> (Step(s, op).1 <==> forall i :: 0 <= i < |s.parameters| ==> s.parameters[i] != None)
    ensures op.ExecuteBatch? ==> (Step(s, op).1 <==> !op.stops || s.rows == [])
    ensures op.ClearParameters? || op.ClearBatch? ==> Step(s, op).1
    ensures !Step(s, op).1 ==> Step(s, op).0 == s
  {
  }

  function Run<T>(count: nat, ops: seq<Op<T>>): State<T> {
    if ops == [] then Start(count) else Step(Run(count, ops[..|ops| - 1]), ops[|ops| - 1]).0
  }

  // ---------------------------------------------------------------- what the caller meant

  /** The latest of the calls that concern parameter `i` decides what is bound to it. */
  function Bound<T>(ops: seq<Op<T>>, i: nat): Option<T> {
    if ops == [] then None
    else
      var last := ops[|ops| - 1];
      if last.SetParameter? && last.index == i + 1 then Some(last.holder)
      else if last.ClearParameters? then None
      else Bound(ops[..|ops| - 1], i)
  }

  function Bindings<T>(count: nat, ops: seq<Op<T>>): (r: Row<T>)
    ensures |r| == count
  {
    seq(count, i requires 0 <= i < count => Bound(ops, i))
  }

  /** An `addBatch` at position `p` counts when every parameter was bound by then and no later call cleared the
      batch. */
  ghost predicate Counts<T>(count: nat, ops: seq<Op<T>>, p: nat) {
    && p < |ops| && ops[p].AddBatch? && Complete(Bindings(count, ops[..p]))
    && forall q :: p < q < |ops| ==> !ops[q].ClearBatch?
  }

  /** The positions of the calls that count, in order. */
  ghost function Counting<T>(count: nat, ops: seq<Op<T>>, upTo: nat): (r: seq<nat>)
    requires upTo <= |ops|
    ensures forall k :: 0 <= k < |r| ==> r[k] < upTo && Counts(count, ops, r[k])
    ensures forall j, k :: 0 <= j < k < |r| ==> r[j] < r[k]
    ensures forall p :: 0 <= p < upTo && Counts(count, ops, p) ==> p in r
  {
    if upTo == 0 then []
    else Counting(count, ops, upTo - 1) + if Counts(count, ops, upTo - 1) then [upTo - 1] else []
  }

  ghost function Snapshots<T>(count: nat, ops: seq<Op<T>>, at: seq<nat>): seq<Row<T>>
    requires forall k :: 0 <= k < |at| ==> at[k] <= |ops|
  {
    seq(|at|, k requires 0 <= k < |at| => Bindings(count, ops[..at[k]]))
  }

  // ---------------------------------------------------------------- every run does it

  /** The parameter slots always hold the latest bindings. */
  lemma {:induction false} RunBinds<T>(count: nat, ops: seq<Op<T>>)
    ensures Run(count, ops).parameters == Bindings(count, ops)
  {
    if ops != [] {
      var front := ops[..|ops| - 1];
      RunBinds(count, front);
    }
  }

  lemma CountsBefore<T>(count: nat, ops: seq<Op<T>>, p: nat)
    requires ops != [] && !ops[|ops| - 1].ClearBatch? && p < |ops| - 1
    ensures Counts(count, ops, p) <==> Counts(count, ops[..|ops| - 1], p)
  {
    var front := ops[..|ops| - 1];
    assert front[..p] == ops[..p] && front[p] == ops[p];
    if Counts(count, front, p) {
      forall q | p < q < |ops| ensures !ops[q].ClearBatch? {
        if q < |front| {
          assert front[q] == ops[q];
        }
      }
    }
    if Counts(count, ops, p) {
      forall q | p < q < |front| ensures !front[q].ClearBatch? {
        assert front[q] == ops[q];
      }
    }
  }

  lemma {:induction false} CountingFront<T>(count: nat, ops: seq<Op<T>>, upTo: nat)
    requires ops != [] && !ops[|ops| - 1].ClearBatch? && upTo < |ops|
    ensures Counting(count, ops, upTo) == Counting(count, ops[..|ops| - 1], upTo)
  {
    hide Counts;
    if upTo > 0 {
      CountingFront(count, ops, upTo - 1);
      CountsBefore(count, ops, upTo - 1);
    }
  }

  lemma SnapshotsFront<T>(count: nat, ops: seq<Op<T>>, at: seq<nat>)
    requires ops != [] && forall k :: 0 <= k < |at| ==> at[k] < |ops|
    ensures Snapshots(count, ops, at) == Snapshots(count, ops[..|ops| - 1], at)
  {
    hide Bindings;
    var front := ops[..|ops| - 1];
    forall k | 0 <= k < |at| ensures ops[..at[k]] == front[..at[k]] {
    }
  }

  lemma {:induction false} NoneCount<T>(count: nat, ops: seq<Op<T>>, upTo: nat)
    requires ops != [] && ops[|ops| - 1].ClearBatch? && upTo <= |ops|
    ensures Counting(count, ops, upTo) == []
  {
    if upTo > 0 {
      NoneCount(count, ops, upTo - 1);
      assert !Counts(count, ops, upTo - 1);
    }
  }

  lemma SnapshotsAppend<T>(count: nat, ops: seq<Op<T>>, at: seq<nat>, p: nat)
    requires p <= |ops| && forall k :: 0 <= k < |at| ==> at[k] <= |ops|
    ensures Snapshots(count, ops, at + [p]) == Snapshots(count, ops, at) + [Bindings(count, ops[..p])]
    ensures Snapshots(count, ops, []) == []
  {
  }

  /** The calls that count after one more call. */
  lemma CountingLast<T>(count: nat, ops: seq<Op<T>>)
    requires ops != []
    ensures var n := |ops| - 1;
            var front, last := ops[..n], ops[n];
            Counting(count, ops, n + 1)
            == if last.ClearBatch? then []
               else if last.AddBatch? && Complete(Bindings(count, front)) then Counting(count, front, n) + [n]
               else Counting(count, front, n)
  {
    hide Counts, Bindings, Complete;
    var n := |ops| - 1;
    if ops[n].ClearBatch? {
      NoneCount(count, ops, n + 1);
    } else {
      CountingFront(count, ops, n);
      LastCounts(count, ops);
      assert Counting(count, ops[..n], n) + [] == Counting(count, ops[..n], n);
    }
  }

  /** The batch is exactly the bindings at each `addBatch` that counts, whatever came after it. */
  lemma {:induction false} RunRows<T>(count: nat, ops: seq<Op<T>>)
    ensures Run(count, ops).rows == Snapshots(count, ops, Counting(count, ops, |ops|))
  {
    hide Counts, Bindings, Snapshots, Complete;
    if ops == [] {
      SnapshotsAppend(count, ops, [], 0);
    } else {
      hide Counting;
      var n := |ops| - 1;
      var front := ops[..n];
      RunRows(count, front);
      RunBinds(count, front);
      CountingLast(count, ops);
      var at := Counting(count, front, n);
      SnapshotsFront(count, ops, at);
      SnapshotsAppend(count, ops, at, n);
      SnapshotsAppend(count, ops, [], 0);
    }
  }

  lemma LastCounts<T>(count: nat, ops: seq<Op<T>>)
    requires ops != []
    ensures Counts(count, ops, |ops| - 1) <==> ops[|ops| - 1].AddBatch? && Complete(Bindings(count, ops[..|ops| - 1]))
  {
  }

  predicate RowsFull<T>(s: State<T>, count: nat) {
    |s.parameters| == count && forall k :: 0 <= k < |s.rows| ==> |s.rows[k]| == count && Complete(s.rows[k])
  }

  lemma StepKeepsRowsFull<T>(s: State<T>, op: Op<T>, count: nat)
    requires RowsFull(s, count)
    ensures RowsFull(Step(s, op).0, count)
  {
  }

  /** At every moment each row has one set holder per parameter. */
  lemma {:induction false} RunRowsFull<T>(count: nat, ops: seq<Op<T>>)
    ensures RowsFull(Run(count, ops), count)
  {
    if ops != [] {
      RunRowsFull(count, ops[..|ops| - 1]);
      StepKeepsRowsFull(Run(count, ops[..|ops| - 1]), ops[|ops| - 1], count);
    }
  }

  /** Later calls other than `clearBatch` leave the rows already there as they are. */
  lemma {:induction false} RowsStay<T>(count: nat, ops: seq<Op<T>>, more: seq<Op<T>>)
    requires forall q :: 0 <= q < |more| ==> !more[q].ClearBatch?
    ensures Run(count, ops).rows <= Run(count, ops + more).rows
  {
    if more == [] {
      assert ops + more == ops;
    } else {
      var n := |more| - 1;
      assert (ops + more)[..|ops + more| - 1] == ops + more[..n];
      RowsStay(count, ops, more[..n]);
    }
  }

  /** The batches that were to be sent: at each execution that did not stop, all rows that counted by then. */
  ghost function Sends<T>(count: nat, ops: seq<Op<T>>): seq<seq<Row<T>>> {
    if ops == [] then []
    else
      var front, last := ops[..|ops| - 1], ops[|ops| - 1];
      var rows := Snapshots(count, front, Counting(count, front, |front|));
      Sends(count, front) + if last == ExecuteBatch(false) && rows != [] then [rows] else []
  }

  /** In every run each execution sends all the rows that count, those that an earlier one has sent included. */
  lemma {:induction false} RunSends<T>(count: nat, ops: seq<Op<T>>)
    ensures Run(count, ops).sent == Sends(count, ops)
  {
    hide Counts, Bindings, Snapshots, Complete, Counting;
    if ops != [] {
      var front := ops[..|ops| - 1];
      RunSends(count, front);
      RunRows(count, front);
    }
  }

  /** So executing twice in a row sends the same rows twice. */
  lemma SentAgain<T>(count: nat, ops: seq<Op<T>>)
    requires Run(count, ops).rows != []
    ensures var s := Run(count, ops);
            Run(count, ops + [ExecuteBatch(false), ExecuteBatch(false)]).sent == s.sent + [s.rows, s.rows]
  {
    var e: Op<T> := ExecuteBatch(false);
    var once, twice := ops + [e], ops + [e, e];
    assert once[..|once| - 1] == ops && twice[..|twice| - 1] == once;
  }

  // ---------------------------------------------------------------- the statement object

  class ClientSidePreparedStatement<T> {
    const paramCount: nat
    var parameters: Row<T>
    var parameterList: seq<Row<T>>
    var sent: seq<seq<Row<T>>>

    ghost predicate Valid()
      reads this
    {
      RowsFull(View(), paramCount)
    }

    function View(): State<T>
      reads this
    {
      State(parameters, parameterList, sent)
    }

    constructor (count: nat)
      ensures Valid() && paramCount == count && View() == Start(count)
    {
      paramCount := count;
      parameters := Unset(count);
      parameterList := [];
      sent := [];
    }

    method SetParameter(parameterIndex: int, holder: T) returns (ok: bool)
      requires Valid()
      modifies this
      ensures Valid() && (View(), ok) == Step(old(View()), Op.SetParameter(parameterIndex, holder))
    {
      ok := parameterIndex >= 1 && parameterIndex < paramCount + 1;
      if ok {
        parameters := parameters[parameterIndex - 1 := Some(holder)];
      }
    }

    method ClearParameters()
      requires Valid()
      modifies this
      ensures Valid() && View() == Step(old(View()), Op.ClearParameters).0
    {
      parameters := Unset(paramCount);
    }

    method AddBatch() returns (ok: bool)
      requires Valid()
      modifies this
      ensures Valid() && (View(), ok) == Step(old(View()), Op.AddBatch)
      ensures !ok ==> parameterList == old(parameterList)
    {
      var holder: Row<T> := Unset(paramCount);
      for i := 0 to |holder|
        invariant |holder| == paramCount
        invariant parameters == old(parameters) && parameterList == old(parameterList) && sent == old(sent)
        invariant holder[..i] == parameters[..i]
        invariant forall k :: 0 <= k < i ==> parameters[k].Some?
      {
        holder := holder[i := parameters[i]];
        if holder[i].None? {
          return false;
        }
        assert holder[..i + 1] == parameters[..i + 1];
      }
      assert holder == holder[..paramCount] == parameters[..paramCount] == parameters;
      parameterList := parameterList + [holder];
      return true;
    }

    method ClearBatch()
      requires Valid()
      modifies this
      ensures Valid() && View() == Step(old(View()), Op.ClearBatch).0
    {
      parameterList := [];
    }

    /** The rows stay in the list, whether the batch is sent or not. */
    method ExecuteBatch(stops: bool) returns (ok: bool)
      requires Valid()
      modifies this`sent
      ensures Valid() && (View(), ok) == Step(old(View()), Op.ExecuteBatch(stops))
    {
      if |parameterList| == 0 {
        return true;
      }
      if stops {
        return false;
      }
      sent := sent + [parameterList];
      return true;
    }

    /** The check before execution: the first position, counted from one, that is not set. */
    method FirstUnset() returns (position: Option<nat>)
      requires Valid()
      ensures position.None? <==> Complete(parameters)
      ensures position.Some? ==> 1 <= position.value <= paramCount && parameters[position.value - 1].None?
      ensures position.Some? ==> Complete(parameters[..position.value - 1])
    {
      for i := 0 to paramCount
        invariant Complete(parameters[..i])
      {
        if parameters[i].None? {
          return Some(i + 1);
        }
        assert parameters[..i + 1] == parameters[..i] + [parameters[i]];
      }
      assert parameters[..paramCount] == parameters;
      return None;
    }
  }
}
