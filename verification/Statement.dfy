/** `MariaDbStatement` as one thread sees it: every way an execution can end, with the mutex it takes and gives back. */
module Statement {
  import opened Text

  datatype SqlError = SqlError(state: string, code: int)

  const CLOSED_ERROR: SqlError := SqlError("42000", -1)

  predicate LostConnection(e: SqlError) {
    "08" <= e.state
  }

  predicate IsIoError(e: SqlError) {
    (e.state == "70100" && e.code == 1927) || e.code == 2013
  }

  /** How the protocol answers one execution. */
  datatype Trip = Fine | PrologFails(e: SqlError) | QueryFails(e: SqlError)

  function ErrorOf(trip: Trip): Option<SqlError> {
    match trip
    case Fine => None
    case PrologFails(e) => Some(e)
    case QueryFails(e) => Some(e)
  }

  /** What the caller of a single query gets to see. The handler of I/O errors throws an exception of its own. */
  datatype Thrown = AsReported(e: SqlError) | LocalInfileDisabled | TimedOut | FromIoHandler

  /** A non-recursive mutex. A thread that locks it while holding it never returns, hence the precondition; unlocking
      it while it is free is recorded as misuse. */
  class Mutex {
    var held: bool
    ghost var misused: bool
    ghost var locks: nat
    ghost var unlocks: nat

    constructor ()
      ensures !held && !misused && locks == unlocks == 0
    {
      held := false;
      misused := false;
      locks, unlocks := 0, 0;
    }

    method Lock()
      requires !held
      modifies this
      ensures held && misused == old(misused) && locks == old(locks) + 1 && unlocks == old(unlocks)
    {
      held := true;
      locks := locks + 1;
    }

    method TryLock() returns (locked: bool)
      modifies this
      ensures locked == !old(held) && held && misused == old(misused)
      ensures locks == old(locks) + (if locked then 1 else 0) && unlocks == old(unlocks)
    {
      locked := !held;
      if locked {
        held := true;
        locks := locks + 1;
      }
    }

    method Unlock()
      modifies this
      ensures !held && misused == (old(misused) || !old(held)) && locks == old(locks) && unlocks == old(unlocks) + 1
    {
      misused := misused || !held;
      held := false;
      unlocks := unlocks + 1;
    }
  }

  class MariaDbStatement {
    const lock: Mutex
    var closed: bool
    var executing: bool
    var isTimedout: bool
    var batchQueries: seq<string>
    ghost var sent: seq<seq<string>>     // what was handed to the protocol, one entry per call

    constructor (mutex: Mutex)
      ensures lock == mutex && !closed && !executing && !isTimedout && batchQueries == [] && sent == []
    {
      lock := mutex;
      closed, executing, isTimedout, batchQueries, sent := false, false, false, [], [];
    }

    method ExecuteQueryPrologue(trip: Trip) returns (failure: Option<SqlError>)
      modifies this`executing
      ensures executing
      ensures failure == if closed then Some(CLOSED_ERROR) else if trip.PrologFails? then Some(trip.e) else None
    {
      executing := true;
      if closed {
        return Some(CLOSED_ERROR);
      }
      if trip.PrologFails? {
        return Some(trip.e);
      }
      return None;
    }

    method ExecuteEpilogue()
      modifies this`isTimedout, this`executing
      ensures !isTimedout && !executing
    {
      isTimedout := false;
      executing := false;
    }

    method ExecuteBatchEpilogue()
      modifies this`isTimedout, this`executing, this`batchQueries
      ensures !isTimedout && !executing && batchQueries == []
    {
      executing := false;
      isTimedout := false;
      ClearBatch();
    }

    method Close()
      requires !lock.held
      modifies this`closed, lock
      ensures closed && !lock.held && lock.misused == old(lock.misused)
      ensures lock.locks == old(lock.locks) + 1 && lock.unlocks == old(lock.unlocks) + 1
    {
      lock.Lock();
      closed := true;
      lock.Unlock();
    }

    /** `executeExceptionEpilogue` and `handleFailoverAndTimeout`: a lost connection closes the statement,
        which takes the mutex again. */
    method CloseIfLost(e: SqlError)
      requires !lock.held
      modifies this`closed, lock
      ensures closed == (old(closed) || LostConnection(e)) && !lock.held && lock.misused == old(lock.misused)
      ensures var n := if LostConnection(e) then 1 else 0;
              lock.locks == old(lock.locks) + n && lock.unlocks == old(lock.unlocks) + n
    {
      if e.state != "" && "08" <= e.state {
        Close();
      }
    }

    /** `executeExceptionEpilogue`. */
    method ExecuteExceptionEpilogue(e: SqlError, allowLocalInfile: bool) returns (thrown: Thrown)
      requires !lock.held
      modifies this`closed, lock
      ensures closed == (old(closed) || LostConnection(e)) && !lock.held && lock.misused == old(lock.misused)
      ensures var n := if LostConnection(e) then 1 else 0;
              lock.locks == old(lock.locks) + n && lock.unlocks == old(lock.unlocks) + n
      ensures thrown == if e.code == 1148 && !allowLocalInfile then LocalInfileDisabled
                        else if isTimedout then TimedOut else AsReported(e)
    {
      CloseIfLost(e);
      if e.code == 1148 && !allowLocalInfile {
        return LocalInfileDisabled;
      }
      if isTimedout {
        return TimedOut;
      }
      return AsReported(e);
    }

    /** One query. Whatever happens, the statement is at rest afterwards and the mutex free: it was taken and given back
        once, and once more if a lost connection closed the statement. A closed statement sends nothing. The caller
        never learns of a time-out, since the epilogue has reset `isTimedout` when the exception is made. */
    method ExecuteInternal(sql: string, trip: Trip, allowLocalInfile: bool)
      returns (failure: Option<SqlError>, thrown: Option<Thrown>)
      requires !lock.held
      modifies this`closed, this`executing, this`isTimedout, this`sent, lock
      ensures !executing && !isTimedout && !lock.held && lock.misused == old(lock.misused)
      ensures failure == if old(closed) then Some(CLOSED_ERROR) else ErrorOf(trip)
      ensures thrown == if failure == None then None
                        else if IsIoError(failure.value) then Some(FromIoHandler)
                        else if failure.value.code == 1148 && !allowLocalInfile then Some(LocalInfileDisabled)
                        else Some(AsReported(failure.value))
      ensures sent == if old(closed) || trip.PrologFails? then old(sent) else old(sent) + [[sql]]
      ensures var closes := failure.Some? && LostConnection(failure.value) && !IsIoError(failure.value);
              closed == (old(closed) || closes)
              && lock.locks == old(lock.locks) + (if closes then 2 else 1)
              && lock.unlocks == old(lock.unlocks) + (if closes then 2 else 1)
    {
      lock.Lock();
      failure := ExecuteQueryPrologue(trip);
      if failure == None {
        sent := sent + [[sql]];
        if trip.QueryFails? {
          failure := Some(trip.e);
        }
      }
      ExecuteEpilogue();
      lock.Unlock();
      thrown := None;
      if failure.Some? {
        var e := failure.value;
        if (e.state == "70100" && e.code == 1927) || e.code == 2013 {
          thrown := Some(FromIoHandler);
        } else {
          var made := ExecuteExceptionEpilogue(e, allowLocalInfile);
          thrown := Some(made);
        }
      }
    }

    method AddBatch(sql: string) returns (ok: bool)
      modifies this`batchQueries
      ensures ok <==> sql != ""
      ensures batchQueries == if ok then old(batchQueries) + [sql] else old(batchQueries)
    {
      if sql == "" {
        return false;
      }
      batchQueries := batchQueries + [sql];
      return true;
    }

    method ClearBatch()
      modifies this`batchQueries
      ensures batchQueries == []
    {
      if batchQueries != [] {
        batchQueries := [];
      }
    }

    /** `executeBatch` and `executeLargeBatch`. Past the closed check, the whole list is sent at most once, in order,
        and is empty afterwards, whether the batch succeeded or not. */
    method ExecuteBatch(trip: Trip) returns (failure: Option<SqlError>)
      requires !lock.held
      modifies this`closed, this`executing, this`isTimedout, this`batchQueries, this`sent, lock
      ensures !lock.held && lock.misused == old(lock.misused)
      ensures if !old(closed) && old(batchQueries) != [] then !executing && !isTimedout
              else executing == old(executing) && isTimedout == old(isTimedout)
      ensures failure == if old(closed) then Some(CLOSED_ERROR)
                         else if old(batchQueries) == [] then None else ErrorOf(trip)
      ensures batchQueries == if old(closed) then old(batchQueries) else []
      ensures sent == if old(closed) || old(batchQueries) == [] || trip.PrologFails? then old(sent)
                      else old(sent) + [old(batchQueries)]
      ensures var runs := !old(closed) && old(batchQueries) != [];
              var closes := runs && failure.Some? && LostConnection(failure.value);
              closed == (old(closed) || closes)
              && lock.locks == old(lock.locks) + (if closes then 2 else if runs then 1 else 0)
              && lock.unlocks == old(lock.unlocks) + (if closes then 2 else if runs then 1 else 0)
    {
      if closed {
        return Some(CLOSED_ERROR);
      }
      if |batchQueries| == 0 {
        return None;
      }
      lock.Lock();
      failure := ExecuteQueryPrologue(trip);
      if failure == None {
        sent := sent + [batchQueries];
        if trip.QueryFails? {
          failure := Some(trip.e);
        }
      }
      ExecuteBatchEpilogue();
      lock.Unlock();
      if failure.Some? {
        CloseIfLost(failure.value);
      }
    }

    /** The batch executes of the prepared statement around this one. A batch that succeeds returns before its epilogue:
        `executing` stays set with the mutex free. */
    method ExecutePreparedBatch(rows: seq<string>, trip: Trip) returns (failure: Option<SqlError>)
      requires !lock.held
      modifies this`closed, this`executing, this`isTimedout, this`batchQueries, this`sent, lock
      ensures !lock.held && lock.misused == old(lock.misused)
      ensures failure == if old(closed) then Some(CLOSED_ERROR) else if rows == [] then None else ErrorOf(trip)
      ensures var runs := !old(closed) && rows != [];
              var closes := runs && failure.Some? && LostConnection(failure.value);
              && executing == (if runs then failure == None else old(executing))
              && isTimedout == (if runs && failure.Some? then false else old(isTimedout))
              && batchQueries == (if runs && failure.Some? then [] else old(batchQueries))
              && sent == (if runs && !trip.PrologFails? then old(sent) + [rows] else old(sent))
              && closed == (old(closed) || closes)
              && lock.locks == old(lock.locks) + (if closes then 2 else if runs then 1 else 0)
              && lock.unlocks == old(lock.unlocks) + (if closes then 2 else if runs then 1 else 0)
    {
      if closed {
        return Some(CLOSED_ERROR);
      }
      if |rows| == 0 {
        return None;
      }
      lock.Lock();
      failure := ExecuteQueryPrologue(trip);
      if failure == None {
        sent := sent + [rows];
        if trip.QueryFails? {
          failure := Some(trip.e);
        }
      }
      if failure == None {
        lock.Unlock();
        return;
      }
      ExecuteBatchEpilogue();
      lock.Unlock();
      CloseIfLost(failure.value);
    }

    /** `cancel` leaves the mutex as it found it and unlocks it no more often than it locked it, except in one case:
        the mutex was free while the statement was executing, and the KILL failed. Then the catch block unlocks it and
        the end of the method does so again. */
    method Cancel(killFails: bool) returns (killed: bool)
      modifies lock
      ensures lock.held == old(lock.held)
      ensures var twice := !closed && !old(lock.held) && executing && killFails;
              lock.misused == (old(lock.misused) || twice)
              && lock.locks - lock.unlocks == old(lock.locks) - old(lock.unlocks) - (if twice then 1 else 0)
      ensures killed <==> !closed && executing && !killFails
    {
      killed := false;
      if closed {
        return;
      }
      var locked := lock.TryLock();
      if executing {
        if killFails {
          if locked {
            lock.Unlock();
          }
        } else {
          killed := true;
        }
      }
      if locked {
        lock.Unlock();
      }
    }
  }
}
