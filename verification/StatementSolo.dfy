/** A thread that has the statement to itself: what each call of `StatementThreads` amounts to from start to end. */
module StatementSolo {
  import opened Text
  import opened StatementThreads

  /** The steps of one thread while the others stand still. */
  function Solo(v: Vars, t: Thread, pc: Pc, cs: seq<Choice>): (Vars, Pc)
    decreases cs
  {
    if cs == [] then (v, pc)
    else
      var (v', pc') := Step(v, t, cs[0], pc);
      Solo(v', t, pc', cs[1..])
  }

  /** They are steps of the machine with all threads. */
  lemma {:induction false} SoloIsSteps(s: Shared, t: Thread, cs: seq<Choice>)
    ensures var n := Steps(s, t, cs); (n.v, At(n, t)) == Solo(s.v, t, At(s, t), cs)
    decreases cs
  {
    hide Step;
    if cs != [] {
      var n := Next(s, t, cs[0]);
      assert (n.v, At(n, t)) == Step(s.v, t, cs[0], At(s, t));
      SoloIsSteps(n, t, cs[1..]);
    }
  }

  predicate Outcomes(cs: seq<Choice>) {
    forall i :: 0 <= i < |cs| ==> cs[i].Outcome?
  }

  lemma OutcomesRest(cs: seq<Choice>)
    requires Outcomes(cs) && cs != []
    ensures cs[0].Outcome? && Outcomes(cs[1..])
  {
  }

  /** One step of `Solo`. */
  lemma Onward(v: Vars, t: Thread, pc: Pc, cs: seq<Choice>, v': Vars, pc': Pc)
    requires cs != [] && Step(v, t, cs[0], pc) == (v', pc')
    ensures Solo(v, t, pc, cs) == Solo(v', t, pc', cs[1..])
  {
    hide Step;
  }

  lemma {:induction false} IdleStays(v: Vars, t: Thread, cs: seq<Choice>)
    requires Outcomes(cs)
    ensures Solo(v, t, Idle, cs) == (v, Idle)
    decreases cs
  {
    if cs != [] {
      assert Step(v, t, cs[0], Idle) == (v, Idle);
      IdleStays(v, t, cs[1..]);
    }
  }

  /** Besides calls: a timer may fire while a query is on its way, and an idle thread may add to the batch. */
  lemma OtherEvents(v: Vars, t: Thread, k: Kind, sql: string)
    ensures Step(v, t, TimerFires, Ready(k)) == (v.(timedOut := true), Ready(k))
    ensures Step(v, t, Add(sql), Idle) == (if sql == "" then v else v.(batch := v.batch + [sql]), Idle)
  {
  }

  // ---------------------------------------------------------------- closing

  /** What a `close` leaves behind. */
  function ClosedBy(v: Vars): Vars {
    v.(closed := true, closeReturned := true, locks := v.locks + 1, unlocks := v.unlocks + 1)
  }

  /** A `close` takes the mutex, marks the statement closed and gives the mutex back. */
  lemma SoloClose(v: Vars, t: Thread, cs: seq<Choice>)
    requires v.holder == None && |cs| >= 3 && Outcomes(cs)
    ensures Solo(v, t, CloseEnter, cs) == (ClosedBy(v), Idle)
  {
    hide Solo, Step;
    var v1 := v.(holder := Some(t), locks := v.locks + 1);
    var v2 := v1.(closed := true);
    CloseSteps(v, t, cs[0], cs[1], cs[2]);
    Onward(v, t, CloseEnter, cs, v1, CloseLocked);
    Onward(v1, t, CloseLocked, cs[1..], v2, CloseMarked);
    Onward(v2, t, CloseMarked, cs[1..][1..], ClosedBy(v), Idle);
    IdleStays(ClosedBy(v), t, cs[1..][1..][1..]);
  }

  lemma CloseSteps(v: Vars, t: Thread, c: Choice, c1: Choice, c2: Choice)
    requires v.holder == None
    ensures var v1 := v.(holder := Some(t), locks := v.locks + 1);
            var v2 := v1.(closed := true);
            && Step(v, t, c, CloseEnter) == (v1, CloseLocked)
            && Step(v1, t, c1, CloseLocked) == (v2, CloseMarked)
            && Step(v2, t, c2, CloseMarked) == (ClosedBy(v), Idle)
  {
  }

  // ---------------------------------------------------------------- the end of an execution

  /** An error that closes the statement: a lost connection, unless a single query met an I/O error. */
  predicate Closes(k: Kind, e: Error) {
    e != NoError && e.lost && (k != One || !e.io)
  }

  /** What an epilogue leaves behind: flags down, the list of a batch empty, the mutex free, and the statement closed if
      the connection was lost. */
  function EpilogueOf(v: Vars, k: Kind, e: Error): Vars {
    var rest := v.(executing := false, left := false, timedOut := false, batch := if k == One then v.batch else [],
                   holder := None, unlocks := v.unlocks + 1);
    if Closes(k, e) then ClosedBy(rest) else rest
  }

  lemma LeaveSolo(v: Vars, t: Thread, k: Kind, e: Error, cs: seq<Choice>)
    requires v.holder == Some(t) && |cs| >= 5 && Outcomes(cs)
    ensures var rest := v.(holder := None, unlocks := v.unlocks + 1);
            Solo(v, t, Leaving(k, e), cs) == (if Closes(k, e) then ClosedBy(rest) else rest, Idle)
  {
    hide Solo, Step;
    var rest := v.(holder := None, unlocks := v.unlocks + 1);
    LeaveSteps(v, t, k, e, cs[0], cs[1]);
    if e == NoError {
      Onward(v, t, Leaving(k, e), cs, rest, Idle);
      IdleStays(rest, t, cs[1..]);
    } else {
      Onward(v, t, Leaving(k, e), cs, rest, Failed(k, e));
      Onward(rest, t, Failed(k, e), cs[1..], rest, if Closes(k, e) then CloseEnter else Idle);
      assert cs[1..][1..] == cs[2..];
      if Closes(k, e) {
        SoloClose(rest, t, cs[2..]);
      } else {
        IdleStays(rest, t, cs[2..]);
      }
    }
  }

  lemma LeaveSteps(v: Vars, t: Thread, k: Kind, e: Error, c: Choice, c1: Choice)
    requires v.holder == Some(t)
    ensures var rest := v.(holder := None, unlocks := v.unlocks + 1);
            && Step(v, t, c, Leaving(k, e)) == (rest, if e == NoError then Idle else Failed(k, e))
            && Step(rest, t, c1, Failed(k, e)) == (rest, if Closes(k, e) then CloseEnter else Idle)
  {
  }

  /** Every execution that settles ends like that. */
  lemma SettleSolo(v: Vars, t: Thread, k: Kind, e: Error, cs: seq<Choice>)
    requires v.holder == Some(t) && |cs| >= 8 && Outcomes(cs)
    ensures Solo(v, t, Settle(k, e), cs) == (EpilogueOf(v, k, e), Idle)
  {
    hide Solo, Step;
    var down := v.(executing := false, left := false, timedOut := false);
    assert cs[1..][1..] == cs[2..] && cs[2..][1..] == cs[3..];
    SettleSteps(v, t, k, e, cs[0], cs[1], cs[2]);
    if k == One {
      var v1 := v.(timedOut := false);
      Onward(v, t, Settle(k, e), cs, v1, Pc.Settled(k, e));
      Onward(v1, t, Pc.Settled(k, e), cs[1..], down, Leaving(k, e));
      LeaveSolo(down, t, k, e, cs[2..]);
    } else {
      var v1 := v.(executing := false, left := false);
      Onward(v, t, Settle(k, e), cs, v1, Pc.Settled(k, e));
      Onward(v1, t, Pc.Settled(k, e), cs[1..], down, Clearing(k, e));
      Onward(down, t, Clearing(k, e), cs[2..], down.(batch := []), Leaving(k, e));
      LeaveSolo(down.(batch := []), t, k, e, cs[3..]);
    }
  }

  lemma SettleSteps(v: Vars, t: Thread, k: Kind, e: Error, c: Choice, c1: Choice, c2: Choice)
    ensures var down := v.(executing := false, left := false, timedOut := false);
            if k == One then
              var v1 := v.(timedOut := false);
              && Step(v, t, c, Settle(k, e)) == (v1, Pc.Settled(k, e))
              && Step(v1, t, c1, Pc.Settled(k, e)) == (down, Leaving(k, e))
            else
              var v1 := v.(executing := false, left := false);
              && Step(v, t, c, Settle(k, e)) == (v1, Pc.Settled(k, e))
              && Step(v1, t, c1, Pc.Settled(k, e)) == (down, Clearing(k, e))
              && Step(down, t, c2, Clearing(k, e)) == (down.(batch := []), Leaving(k, e))
  {
  }

  // ---------------------------------------------------------------- whole executions

  /** The statement with the mutex taken and `executing` set. */
  function Taken(v: Vars, t: Thread): Vars {
    v.(holder := Some(t), locks := v.locks + 1, executing := true)
  }

  /** What an execution leaves behind, if the prologue ends with `p` and the query with `q`: a closed statement sends
      nothing and fails; a prologue that fails sends nothing; a prepared batch that succeeds has no epilogue. */
  function Executed(v: Vars, t: Thread, k: Kind, p: Error, q: Error): Vars {
    var taken := Taken(v, t);
    if v.closed then EpilogueOf(taken, k, Error(false, false))
    else if p != NoError then EpilogueOf(taken, k, p)
    else
      var sent := taken.(sentLate := v.sentLate || v.closeReturned);
      if k == Prepared && q == NoError
      then sent.(holder := None, unlocks := v.unlocks + 1, left := true, everLeft := true)
      else EpilogueOf(sent, k, q)
  }

  lemma EnterSolo(v: Vars, t: Thread, k: Kind, cs: seq<Choice>)
    requires v.holder == None && |cs| >= 2
    ensures Solo(v, t, Enter(k), cs) == Solo(Taken(v, t), t, Flagged(k), cs[2..])
  {
    hide Solo, Step;
    var v1 := v.(holder := Some(t), locks := v.locks + 1);
    EnterSteps(v, t, k, cs[0], cs[1]);
    Onward(v, t, Enter(k), cs, v1, Locked(k));
    Onward(v1, t, Locked(k), cs[1..], Taken(v, t), Flagged(k));
    assert cs[1..][1..] == cs[2..];
  }

  lemma EnterSteps(v: Vars, t: Thread, k: Kind, c: Choice, c1: Choice)
    requires v.holder == None
    ensures var v1 := v.(holder := Some(t), locks := v.locks + 1);
            Step(v, t, c, Enter(k)) == (v1, Locked(k)) && Step(v1, t, c1, Locked(k)) == (Taken(v, t), Flagged(k))
  {
  }

  lemma BodySteps(v: Vars, t: Thread, k: Kind, p: Error, q: Error, c: Choice)
    ensures Step(v, t, c, Flagged(k)) == (v, if v.closed then Settle(k, Error(false, false)) else Open(k))
    ensures Step(v, t, Outcome(p), Open(k)) == (v, if p == NoError then Ready(k) else Settle(k, p))
    ensures Step(v, t, Outcome(q), Ready(k))
         == (v.(sentLate := v.sentLate || v.closeReturned),
             if k == Prepared && q == NoError then Returning else Settle(k, q))
  {
  }

  lemma ReturnStep(v: Vars, t: Thread, c: Choice)
    requires v.holder == Some(t)
    ensures Step(v, t, c, Returning)
         == (v.(holder := None, unlocks := v.unlocks + 1, left := true, everLeft := true), Idle)
  {
  }

  /** From the request for the mutex to the end. */
  lemma ExecuteSolo(v: Vars, t: Thread, k: Kind, p: Error, q: Error, cs: seq<Choice>)
    requires v.holder == None && |cs| >= 13 && Outcomes(cs) && cs[3] == Outcome(p) && cs[4] == Outcome(q)
    ensures Solo(v, t, Enter(k), cs) == (Executed(v, t, k, p, q), Idle)
  {
    hide Solo, Step;
    var taken := Taken(v, t);
    assert cs[2..][1..] == cs[3..] && cs[3..][1..] == cs[4..] && cs[4..][1..] == cs[5..] && cs[5..][1..] == cs[6..];
    EnterSolo(v, t, k, cs);
    BodySteps(taken, t, k, p, q, cs[2]);
    if v.closed {
      Onward(taken, t, Flagged(k), cs[2..], taken, Settle(k, Error(false, false)));
      SettleSolo(taken, t, k, Error(false, false), cs[3..]);
    } else {
      Onward(taken, t, Flagged(k), cs[2..], taken, Open(k));
      if p != NoError {
        Onward(taken, t, Open(k), cs[3..], taken, Settle(k, p));
        SettleSolo(taken, t, k, p, cs[4..]);
      } else {
        Onward(taken, t, Open(k), cs[3..], taken, Ready(k));
        SendSolo(v, t, k, q, cs[4..]);
      }
    }
  }

  lemma SendSolo(v: Vars, t: Thread, k: Kind, q: Error, cs: seq<Choice>)
    requires v.holder == None && !v.closed && |cs| >= 9 && Outcomes(cs) && cs[0] == Outcome(q)
    ensures Solo(Taken(v, t), t, Ready(k), cs) == (Executed(v, t, k, NoError, q), Idle)
  {
    hide Solo, Step;
    var taken := Taken(v, t);
    var sent := taken.(sentLate := v.sentLate || v.closeReturned);
    BodySteps(taken, t, k, NoError, q, cs[0]);
    if k == Prepared && q == NoError {
      Onward(taken, t, Ready(k), cs, sent, Returning);
      ReturnStep(sent, t, cs[1]);
      var done := sent.(holder := None, unlocks := v.unlocks + 1, left := true, everLeft := true);
      Onward(sent, t, Returning, cs[1..], done, Idle);
      IdleStays(done, t, cs[1..][1..]);
    } else {
      Onward(taken, t, Ready(k), cs, sent, Settle(k, q));
      SettleSolo(sent, t, k, q, cs[1..]);
    }
  }

  /** The choices of an execution of one query. */
  predicate OneQuery(cs: seq<Choice>, p: Error, q: Error) {
    |cs| >= 14 && cs[0] == Call(ExecuteOne) && Outcomes(cs[1..]) && cs[4] == Outcome(p) && cs[5] == Outcome(q)
  }

  /** A single query, from the call to its end, whatever happens in it. */
  lemma SoloQuery(v: Vars, t: Thread, p: Error, q: Error, cs: seq<Choice>)
    requires v.holder == None && OneQuery(cs, p, q)
    ensures Solo(v, t, Idle, cs) == (Executed(v, t, One, p, q), Idle)
  {
    hide Solo, Step;
    CallStarts(v, t, ExecuteOne);
    Onward(v, t, Idle, cs, v, Enter(One));
    ExecuteSolo(v, t, One, p, q, cs[1..]);
  }

  lemma CallStarts(v: Vars, t: Thread, op: Operation)
    ensures Step(v, t, Call(op), Idle) ==
            (v, match op
                case ExecuteOne => Enter(One)
                case ExecuteBatch => BatchCheck(Batch)
                case ExecutePrepared => BatchCheck(Prepared)
                case Close => CloseEnter
                case Cancel => CancelCheck)
  {
  }

  /** The choices of a batch execution, of the statement itself or of a prepared one. */
  predicate OneBatch(cs: seq<Choice>, k: Kind, p: Error, q: Error) {
    |cs| >= 15 && cs[0] == Call(if k == Batch then ExecuteBatch else ExecutePrepared) && Outcomes(cs[1..])
    && cs[5] == Outcome(p) && cs[6] == Outcome(q)
  }

  /** A batch, from the call to its end: nothing happens on a closed statement or for an empty list; otherwise the list
      is empty afterwards, except after a prepared batch that succeeded. */
  lemma SoloBatch(v: Vars, t: Thread, k: Kind, p: Error, q: Error, cs: seq<Choice>)
    requires v.holder == None && k != One && OneBatch(cs, k, p, q)
    ensures Solo(v, t, Idle, cs)
         == (if v.closed || (k == Batch && v.batch == []) then v else Executed(v, t, k, p, q), Idle)
  {
    hide Solo, Step;
    CallStarts(v, t, if k == Batch then ExecuteBatch else ExecutePrepared);
    Onward(v, t, Idle, cs, v, BatchCheck(k));
    var rest := cs[1..];
    CheckStep(v, t, k, rest[0]);
    assert rest[1..] == cs[2..];
    if v.closed || (k == Batch && v.batch == []) {
      Onward(v, t, BatchCheck(k), rest, v, Idle);
      IdleStays(v, t, rest[1..]);
    } else {
      Onward(v, t, BatchCheck(k), rest, v, Enter(k));
      ExecuteSolo(v, t, k, p, q, rest[1..]);
    }
  }

  lemma CheckStep(v: Vars, t: Thread, k: Kind, c: Choice)
    ensures Step(v, t, c, BatchCheck(k)) == (v, if v.closed || (k == Batch && v.batch == []) then Idle else Enter(k))
  {
  }

  /** In particular: after a batch that was not refused the list is empty, the flags are down, and a lost connection has
      closed the statement. */
  lemma BatchEnds(v: Vars, t: Thread, p: Error, q: Error)
    requires v.holder == None && !v.closed && v.batch != []
    ensures var e := if p != NoError then p else q;
            var after := Executed(v, t, Batch, p, q);
            && after.batch == [] && !after.executing && !after.timedOut && after.holder == None
            && (after.closed <==> e != NoError && e.lost)
            && after.locks - after.unlocks == v.locks - v.unlocks && after.misused == v.misused
  {
  }

  // ---------------------------------------------------------------- cancelling

  /** What a `cancel` leaves behind, if the KILL, where one is sent, ends with `e`: with the mutex taken by another
      thread nothing; with the mutex free it is taken and given back, and given back once more if the KILL fails. */
  function Cancelled(v: Vars, e: Error): Vars {
    if v.closed || v.holder != None then v
    else
      var twice := v.executing && e != NoError;
      v.(locks := v.locks + 1, unlocks := v.unlocks + (if twice then 2 else 1), misused := v.misused || twice)
  }

  lemma CancelTakes(v: Vars, t: Thread, e: Error, c: Choice)
    requires !v.closed && v.holder == None
    ensures var v1 := v.(holder := Some(t), locks := v.locks + 1);
            && Step(v, t, c, CancelTry) == (v1, CancelLook(true))
            && Step(v1, t, Outcome(e), CancelLook(true))
               == (v1, if v.executing && e != NoError then CancelThrown(true) else CancelEnd(true))
  {
  }

  lemma CancelGivesBack(v: Vars, t: Thread, c: Choice)
    requires v.holder == Some(t)
    ensures var free := v.(holder := None, unlocks := v.unlocks + 1);
            Step(v, t, c, CancelThrown(true)) == (free, CancelAgain) && Step(v, t, c, CancelEnd(true)) == (free, Idle)
  {
  }

  lemma CancelGivesBackAgain(v: Vars, t: Thread, c: Choice)
    requires v.holder == None
    ensures Step(v, t, c, CancelAgain) == (v.(unlocks := v.unlocks + 1, misused := true), Idle)
  {
  }

  lemma CancelStepsTaken(v: Vars, t: Thread, e: Error, c: Choice)
    requires !v.closed && v.holder != None
    ensures Step(v, t, c, CancelTry) == (v, CancelLook(false))
    ensures Step(v, t, Outcome(e), CancelLook(false))
         == (v, if v.executing && e != NoError then CancelThrown(false) else CancelEnd(false))
    ensures Step(v, t, c, CancelThrown(false)) == (v, CancelEnd(false))
    ensures Step(v, t, c, CancelEnd(false)) == (v, Idle)
  {
  }

  lemma CancelCheckStep(v: Vars, t: Thread, c: Choice)
    ensures Step(v, t, c, CancelCheck) == (v, if v.closed then Idle else CancelTry)
  {
  }

  lemma TrySoloFree(v: Vars, t: Thread, e: Error, cs: seq<Choice>)
    requires !v.closed && v.holder == None && |cs| >= 4 && Outcomes(cs) && cs[1] == Outcome(e)
    ensures Solo(v, t, CancelTry, cs) == (Cancelled(v, e), Idle)
  {
    hide Solo, Step;
    assert cs[1..][1..] == cs[2..] && cs[2..][1..] == cs[3..] && cs[3..][1..] == cs[4..];
    var v1 := v.(holder := Some(t), locks := v.locks + 1);
    var free := v1.(holder := None, unlocks := v.unlocks + 1);
    CancelTakes(v, t, e, cs[0]);
    CancelGivesBack(v1, t, cs[2]);
    Onward(v, t, CancelTry, cs, v1, CancelLook(true));
    if v.executing && e != NoError {
      CancelGivesBackAgain(free, t, cs[3]);
      Onward(v1, t, CancelLook(true), cs[1..], v1, CancelThrown(true));
      Onward(v1, t, CancelThrown(true), cs[2..], free, CancelAgain);
      Onward(free, t, CancelAgain, cs[3..], Cancelled(v, e), Idle);
      IdleStays(Cancelled(v, e), t, cs[4..]);
    } else {
      Onward(v1, t, CancelLook(true), cs[1..], v1, CancelEnd(true));
      Onward(v1, t, CancelEnd(true), cs[2..], free, Idle);
      IdleStays(free, t, cs[3..]);
    }
  }

  lemma TrySoloTaken(v: Vars, t: Thread, e: Error, cs: seq<Choice>)
    requires !v.closed && v.holder != None && |cs| >= 4 && Outcomes(cs) && cs[1] == Outcome(e)
    ensures Solo(v, t, CancelTry, cs) == (v, Idle)
  {
    hide Solo, Step;
    assert cs[1..][1..] == cs[2..] && cs[2..][1..] == cs[3..] && cs[3..][1..] == cs[4..];
    CancelStepsTaken(v, t, e, cs[0]);
    CancelStepsTaken(v, t, e, cs[2]);
    CancelStepsTaken(v, t, e, cs[3]);
    Onward(v, t, CancelTry, cs, v, CancelLook(false));
    if v.executing && e != NoError {
      Onward(v, t, CancelLook(false), cs[1..], v, CancelThrown(false));
      Onward(v, t, CancelThrown(false), cs[2..], v, CancelEnd(false));
      Onward(v, t, CancelEnd(false), cs[3..], v, Idle);
      IdleStays(v, t, cs[4..]);
    } else {
      Onward(v, t, CancelLook(false), cs[1..], v, CancelEnd(false));
      Onward(v, t, CancelEnd(false), cs[2..], v, Idle);
      IdleStays(v, t, cs[3..]);
    }
  }

  /** A `cancel`, from the call to its end: a KILL that succeeds never harms the mutex. */
  lemma SoloCancel(v: Vars, t: Thread, e: Error, cs: seq<Choice>)
    requires |cs| >= 6 && cs[0] == Call(Cancel) && Outcomes(cs[1..]) && cs[3] == Outcome(e)
    ensures Solo(v, t, Idle, cs) == (Cancelled(v, e), Idle)
    ensures e == NoError ==> Cancelled(v, e).misused == v.misused
  {
    hide Solo, Step;
    CallStarts(v, t, Cancel);
    Onward(v, t, Idle, cs, v, CancelCheck);
    var rest := cs[1..];
    assert rest[1..] == cs[2..];
    CancelCheckStep(v, t, rest[0]);
    if v.closed {
      Onward(v, t, CancelCheck, rest, v, Idle);
      IdleStays(v, t, cs[2..]);
    } else {
      Onward(v, t, CancelCheck, rest, v, CancelTry);
      if v.holder == None {
        TrySoloFree(v, t, e, cs[2..]);
      } else {
        TrySoloTaken(v, t, e, cs[2..]);
      }
    }
  }
}
