/** Threads calling `executeInternal`, `executeBatch`/`executeLargeBatch`, `close` and `cancel` on one
    `MariaDbStatement`, and the batch executes of the prepared statement around it, one access to shared state at a
    time, in every interleaving. */
module StatementThreads {
  import opened Text

  type Thread = nat

  /** How an execution ends: `io` errors of a single query are thrown on by `handleIoException`, a `lost`
      connection has an SQL state starting with "08". */
  datatype Error = NoError | Error(io: bool, lost: bool)

  datatype Kind = One | Batch | Prepared

  /** Where a thread stands. */
  datatype Pc =
    | Idle
    | BatchCheck(k: Kind)              // a batch execute: checkClose and the size of the list, without the lock
    | Enter(k: Kind)                   // about to lock
    | Locked(k: Kind)                  // about to set `executing`
    | Flagged(k: Kind)                 // about to read `closed`
    | Open(k: Kind)                    // about to run the protocol's prologue
    | Ready(k: Kind)                   // about to send
    | Settle(k: Kind, e: Error)        // epilogue: first flag
    | Settled(k: Kind, e: Error)       // epilogue: second flag
    | Clearing(k: Kind, e: Error)      // batch epilogue: the list
    | Leaving(k: Kind, e: Error)       // about to unlock
    | Returning                        // a prepared batch that succeeded, about to unlock without any epilogue
    | Failed(k: Kind, e: Error)        // unlocked, exception in hand
    | CloseEnter                       // close: about to lock
    | CloseLocked                      // about to set `closed`
    | CloseMarked                      // about to unlock and return
    | CancelCheck                      // cancel: checkClose, without the lock
    | CancelTry                        // about to try the lock
    | CancelLook(locked: bool)         // about to read `executing`
    | CancelThrown(locked: bool)       // in the outer catch block
    | CancelEnd(locked: bool)          // after the try block
    | CancelAgain                      // after the try block, with the mutex already given back by the catch block

  /** The statement and its mutex, with some history. */
  datatype Vars = Vars(
    holder: Option<Thread>, closed: bool, executing: bool, timedOut: bool, batch: seq<string>,
    closeReturned: bool,               // some close() has returned
    sentLate: bool,                    // something was sent after that
    misused: bool,                     // the mutex was unlocked by a thread that did not hold it
    left: bool,                        // no epilogue since a prepared batch that succeeded
    everLeft: bool,                    // some prepared batch has succeeded
    locks: nat, unlocks: nat)

  datatype Shared = Shared(v: Vars, pcs: map<Thread, Pc>)

  function At(s: Shared, t: Thread): Pc {
    if t in s.pcs then s.pcs[t] else Idle
  }

  /** Blocks, that is, changes nothing, while anyone holds the mutex. */
  function Lock(v: Vars, t: Thread, pc: Pc, next: Pc): (Vars, Pc) {
    if v.holder == None then (v.(holder := Some(t), locks := v.locks + 1), next) else (v, pc)
  }

  function Unlock(v: Vars, t: Thread): Vars {
    v.(holder := None, unlocks := v.unlocks + 1, misused := v.misused || v.holder != Some(t))
  }

  /** What is not decided by the statement itself: which call an idle thread makes, how a protocol call ends,
      whether a timer fires. */
  datatype Choice = Call(op: Operation) | Outcome(e: Error) | TimerFires | Add(sql: string)

  datatype Operation = ExecuteOne | ExecuteBatch | ExecutePrepared | Close | Cancel

  function Begin(op: Operation): Pc {
    match op
    case ExecuteOne => Enter(One)
    case ExecuteBatch => BatchCheck(Batch)
    case ExecutePrepared => BatchCheck(Prepared)
    case Close => CloseEnter
    case Cancel => CancelCheck
  }

  function Ended(c: Choice): Error {
    if c.Outcome? then c.e else NoError
  }

  function CallStep(v: Vars, c: Choice): (Vars, Pc) {
    match c
    case Call(op) => (v, Begin(op))
    case Add(sql) => (if sql == "" then v else v.(batch := v.batch + [sql]), Idle)
    case _ => (v, Idle)
  }

  predicate Starting(pc: Pc) {
    pc.BatchCheck? || pc.Enter? || pc.Locked? || pc.Flagged? || pc.Open? || pc.Ready?
  }

  function StartStep(v: Vars, t: Thread, c: Choice, pc: Pc): (Vars, Pc)
    requires Starting(pc)
  {
    match pc
    case BatchCheck(k) => (v, if v.closed || (k == Batch && v.batch == []) then Idle else Enter(k))
    case Enter(k) => Lock(v, t, pc, Locked(k))
    case Locked(k) => (v.(executing := true), Flagged(k))
    case Flagged(k) => (v, if v.closed then Settle(k, Error(false, false)) else Open(k))
    case Open(k) => (v, if Ended(c) == NoError then Ready(k) else Settle(k, Ended(c)))
    case Ready(k) =>
      if c == TimerFires then (v.(timedOut := true), pc)
      else (v.(sentLate := v.sentLate || v.closeReturned),
            if k == Prepared && Ended(c) == NoError then Returning else Settle(k, Ended(c)))
  }

  predicate Finishing(pc: Pc) {
    pc.Settle? || pc.Settled? || pc.Clearing? || pc.Leaving? || pc.Returning? || pc.Failed?
  }

  function FinishStep(v: Vars, t: Thread, pc: Pc): (Vars, Pc)
    requires Finishing(pc)
  {
    match pc
    case Settle(k, e) =>
      (if k == One then v.(timedOut := false) else v.(executing := false, left := false), Settled(k, e))
    case Settled(k, e) =>
      if k == One then (v.(executing := false, left := false), Leaving(k, e))
      else (v.(timedOut := false), Clearing(k, e))
    case Clearing(k, e) => (v.(batch := []), Leaving(k, e))
    case Leaving(k, e) => (Unlock(v, t), if e == NoError then Idle else Failed(k, e))
    case Returning => (Unlock(v, t).(left := true, everLeft := true), Idle)
    case Failed(k, e) => (v, if e != NoError && e.lost && (k != One || !e.io) then CloseEnter else Idle)
  }

  predicate Closing(pc: Pc) {
    pc.CloseEnter? || pc.CloseLocked? || pc.CloseMarked?
  }

  function CloseStep(v: Vars, t: Thread, pc: Pc): (Vars, Pc)
    requires Closing(pc)
  {
    match pc
    case CloseEnter => Lock(v, t, pc, CloseLocked)
    case CloseLocked => (v.(closed := true), CloseMarked)
    case CloseMarked => (Unlock(v, t).(closeReturned := true), Idle)
  }

  predicate Cancelling(pc: Pc) {
    pc.CancelCheck? || pc.CancelTry? || pc.CancelLook? || pc.CancelThrown? || pc.CancelEnd? || pc.CancelAgain?
  }

  function CancelStep(v: Vars, t: Thread, c: Choice, pc: Pc): (Vars, Pc)
    requires Cancelling(pc)
  {
    match pc
    case CancelCheck => (v, if v.closed then Idle else CancelTry)
    case CancelTry => if v.holder == None then Lock(v, t, pc, CancelLook(true)) else (v, CancelLook(false))
    case CancelLook(locked) =>
      (v, if v.executing && Ended(c) != NoError then CancelThrown(locked) else CancelEnd(locked))
    case CancelThrown(locked) => if locked then (Unlock(v, t), CancelAgain) else (v, CancelEnd(locked))
    case CancelEnd(locked) => (if locked then Unlock(v, t) else v, Idle)
    case CancelAgain => (Unlock(v, t), Idle)
  }

  /** One step of a thread that stands at `pc`. */
  function Step(v: Vars, t: Thread, c: Choice, pc: Pc): (Vars, Pc) {
    if pc.Idle? then CallStep(v, c)
    else if Starting(pc) then StartStep(v, t, c, pc)
    else if Finishing(pc) then FinishStep(v, t, pc)
    else if Closing(pc) then CloseStep(v, t, pc)
    else CancelStep(v, t, c, pc)
  }

  function Next(s: Shared, t: Thread, c: Choice): Shared {
    var (v, pc) := Step(s.v, t, c, At(s, t));
    Shared(v, s.pcs[t := pc])
  }

  // ---------------------------------------------------------------- the invariant

  predicate Holds(pc: Pc) {
    pc.Locked? || pc.Flagged? || pc.Open? || pc.Ready? || pc.Settle? || pc.Settled? || pc.Clearing? || pc.Leaving?
    || pc.Returning? || pc.CloseLocked? || pc.CloseMarked?
    || ((pc.CancelLook? || pc.CancelThrown? || pc.CancelEnd?) && pc.locked)
  }

  /** Between setting and resetting `executing`. */
  predicate Executes(pc: Pc) {
    pc.Flagged? || pc.Open? || pc.Ready? || pc.Returning? || pc.Settle? || (pc.Settled? && pc.k == One)
  }

  predicate MayTimeOut(pc: Pc) {
    pc.Ready? || pc.Returning? || pc.Settle? || (pc.Settled? && pc.k != One)
  }

  /** After `executing` was reset. */
  predicate Lowered(pc: Pc) {
    pc.Clearing? || pc.Leaving? || (pc.Settled? && pc.k != One)
  }

  /** After `isTimedout` was reset. */
  predicate Calmed(pc: Pc) {
    pc.Clearing? || pc.Leaving? || (pc.Settled? && pc.k == One)
  }

  /** In the part of `cancel` that a failed KILL leads to after `cancel` took the mutex itself. */
  predicate CaughtLocked(pc: Pc) {
    pc == CancelThrown(true) || pc == CancelAgain
  }

  /** The flags, as far as they depend on the thread that holds the mutex. */
  predicate FlagsFit(v: Vars, pc: Pc) {
    && (v.executing <==> v.left || Executes(pc))
    && (v.timedOut ==> v.left || MayTimeOut(pc))
    && (v.left ==> !Lowered(pc)) && (v.timedOut ==> !Calmed(pc))
  }

  /** What holds as long as the mutex has not been misused. */
  ghost predicate Core(s: Shared) {
    && (forall t: Thread :: Holds(At(s, t)) <==> s.v.holder == Some(t))
    && FlagsFit(s.v, if s.v.holder.Some? then At(s, s.v.holder.value) else Idle)
    && (forall t: Thread :: At(s, t).Open? || At(s, t).Ready? ==> !s.v.closed)
    && !s.v.sentLate
    && s.v.locks == s.v.unlocks + (if s.v.holder.Some? then 1 else 0)
  }

  ghost predicate Inv(s: Shared) {
    && (forall t: Thread :: At(s, t).CloseMarked? ==> s.v.closed)
    && (s.v.closeReturned ==> s.v.closed)
    && (forall t: Thread :: CaughtLocked(At(s, t)) ==> s.v.everLeft)
    && (s.v.left || s.v.misused ==> s.v.everLeft)
    && (s.v.misused || Core(s))
  }

  /** The invariant as far as it concerns a thread `t` at `pc`. */
  predicate Facts(v: Vars, t: Thread, pc: Pc) {
    && (pc.CloseMarked? || v.closeReturned ==> v.closed)
    && (CaughtLocked(pc) || v.left || v.misused ==> v.everLeft)
    && (v.misused ||
        (&& (Holds(pc) <==> v.holder == Some(t))
         && (v.left ==> v.executing)
         && (v.holder == Some(t) ==> FlagsFit(v, pc))
         && (v.holder == None ==> FlagsFit(v, Idle))
         && (pc.Open? || pc.Ready? ==> !v.closed)
         && !v.sentLate
         && v.locks == v.unlocks + (if v.holder.Some? then 1 else 0)))
  }

  /** What a step of `t` to `pc` has to respect. */
  predicate Respects(v: Vars, v': Vars, t: Thread, pc: Pc) {
    && (v.closed ==> v'.closed)
    && (pc.CloseMarked? || v'.closeReturned ==> v'.closed)
    && (v.everLeft ==> v'.everLeft)
    && (CaughtLocked(pc) || v'.left || v'.misused ==> v'.everLeft)
    && (v.misused ==> v'.misused)
    && (v'.misused || RespectsCore(v, v', t, pc))
  }

  predicate RespectsCore(v: Vars, v': Vars, t: Thread, pc: Pc) {
    && (if Holds(pc) then (v.holder == None || v.holder == Some(t)) && v'.holder == Some(t) && FlagsFit(v', pc)
        else if v.holder == Some(t) then v'.holder == None && FlagsFit(v', Idle)
        else v'.holder == v.holder && v'.executing == v.executing && v'.timedOut == v.timedOut && v'.left == v.left)
    && (pc.Open? || pc.Ready? ==> !v'.closed)
    && (v'.closed && !v.closed ==> v.holder == Some(t))
    && !v'.sentLate
    && v'.locks == v'.unlocks + (if v'.holder.Some? then 1 else 0)
  }

  lemma StartRespects(v: Vars, t: Thread, c: Choice, pc: Pc)
    requires Facts(v, t, pc) && Starting(pc)
    ensures var (v', pc') := StartStep(v, t, c, pc); Respects(v, v', t, pc')
  {
  }

  lemma SettleRespects(v: Vars, t: Thread, pc: Pc)
    requires Facts(v, t, pc) && (pc.Settle? || pc.Settled? || pc.Clearing?)
    ensures var (v', pc') := FinishStep(v, t, pc); Respects(v, v', t, pc')
  {
  }

  lemma FinishRespects(v: Vars, t: Thread, pc: Pc)
    requires Facts(v, t, pc) && (pc.Leaving? || pc.Returning? || pc.Failed?)
    ensures var (v', pc') := FinishStep(v, t, pc); Respects(v, v', t, pc')
  {
  }

  lemma CloseRespects(v: Vars, t: Thread, pc: Pc)
    requires Facts(v, t, pc) && Closing(pc)
    ensures var (v', pc') := CloseStep(v, t, pc); Respects(v, v', t, pc')
  {
  }

  lemma CancelRespects(v: Vars, t: Thread, c: Choice, pc: Pc)
    requires Facts(v, t, pc) && (pc.CancelCheck? || pc.CancelTry? || pc.CancelLook?)
    ensures var (v', pc') := CancelStep(v, t, c, pc); Respects(v, v', t, pc')
  {
  }

  lemma CancelEndRespects(v: Vars, t: Thread, c: Choice, pc: Pc)
    requires Facts(v, t, pc) && (pc.CancelThrown? || pc.CancelEnd? || pc.CancelAgain?)
    ensures var (v', pc') := CancelStep(v, t, c, pc); Respects(v, v', t, pc')
  {
  }

  lemma CallRespects(v: Vars, t: Thread, c: Choice)
    requires Facts(v, t, Idle)
    ensures var (v', pc') := CallStep(v, c); Respects(v, v', t, pc')
  {
  }

  lemma StepRespects(v: Vars, t: Thread, c: Choice, pc: Pc)
    requires Facts(v, t, pc)
    ensures var (v', pc') := Step(v, t, c, pc); Respects(v, v', t, pc')
  {
    hide Facts, Respects, CallStep, StartStep, FinishStep, CloseStep, CancelStep;
    if pc.Idle? {
      CallRespects(v, t, c);
    } else if Starting(pc) {
      StartRespects(v, t, c, pc);
    } else if pc.Settle? || pc.Settled? || pc.Clearing? {
      SettleRespects(v, t, pc);
    } else if Finishing(pc) {
      FinishRespects(v, t, pc);
    } else if Closing(pc) {
      CloseRespects(v, t, pc);
    } else if pc.CancelCheck? || pc.CancelTry? || pc.CancelLook? {
      CancelRespects(v, t, c, pc);
    } else {
      CancelEndRespects(v, t, c, pc);
    }
  }

  lemma InvFacts(s: Shared, t: Thread)
    requires Inv(s)
    ensures Facts(s.v, t, At(s, t))
  {
    if !s.v.misused {
      assert Holds(At(s, t)) <==> s.v.holder == Some(t);
    }
  }

  lemma RespectsKeepsInv(s: Shared, v: Vars, t: Thread, pc: Pc)
    requires Inv(s) && Respects(s.v, v, t, pc)
    ensures Inv(Shared(v, s.pcs[t := pc]))
  {
    hide Core, RespectsCore;
    var s' := Shared(v, s.pcs[t := pc]);
    forall u: Thread
      ensures At(s', u).CloseMarked? ==> v.closed
      ensures CaughtLocked(At(s', u)) ==> v.everLeft
    {
      if u != t {
        assert At(s', u) == At(s, u);
      }
    }
    if !v.misused {
      RespectsKeepsCore(s, v, t, pc);
    }
  }

  lemma RespectsKeepsCore(s: Shared, v: Vars, t: Thread, pc: Pc)
    requires Core(s) && RespectsCore(s.v, v, t, pc) && (s.v.closed ==> v.closed)
    ensures Core(Shared(v, s.pcs[t := pc]))
  {
    var s' := Shared(v, s.pcs[t := pc]);
    assert At(s', t) == pc;
    assert Holds(At(s, t)) <==> s.v.holder == Some(t);
    forall u: Thread
      ensures Holds(At(s', u)) <==> v.holder == Some(u)
      ensures At(s', u).Open? || At(s', u).Ready? ==> !v.closed
    {
      if u != t {
        assert At(s', u) == At(s, u);
        assert Holds(At(s, u)) <==> s.v.holder == Some(u);
      }
    }
    if v.holder.Some? && v.holder != Some(t) {
      assert At(s', v.holder.value) == At(s, s.v.holder.value);
    }
  }

  lemma StepKeepsInv(s: Shared, t: Thread, c: Choice)
    requires Inv(s)
    ensures Inv(Next(s, t, c))
    ensures s.v.closed ==> Next(s, t, c).v.closed
  {
    hide Inv, Step, Facts, RespectsCore;
    InvFacts(s, t);
    StepRespects(s.v, t, c, At(s, t));
    var (v, pc) := Step(s.v, t, c, At(s, t));
    RespectsKeepsInv(s, v, t, pc);
  }

  function Fresh(): Shared {
    Shared(Vars(None, false, false, false, [], false, false, false, false, false, 0, 0), map[])
  }

  ghost function Run(s: Shared, steps: seq<(Thread, Choice)>): Shared
    decreases steps
  {
    if steps == [] then s else Run(Next(s, steps[0].0, steps[0].1), steps[1..])
  }

  lemma {:induction false} RunKeepsInv(s: Shared, steps: seq<(Thread, Choice)>)
    requires Inv(s)
    ensures Inv(Run(s, steps)) && (s.v.closed ==> Run(s, steps).v.closed)
    decreases steps
  {
    hide Inv, Next;
    if steps != [] {
      StepKeepsInv(s, steps[0].0, steps[0].1);
      RunKeepsInv(Next(s, steps[0].0, steps[0].1), steps[1..]);
    }
  }

  lemma FreshInv()
    ensures Inv(Fresh())
  {
  }

  // ---------------------------------------------------------------- what it means

  lemma {:induction false} RunConcat(s: Shared, xs: seq<(Thread, Choice)>, ys: seq<(Thread, Choice)>)
    ensures Run(s, xs + ys) == Run(Run(s, xs), ys)
    decreases xs
  {
    if xs == [] {
      assert xs + ys == ys;
    } else {
      assert (xs + ys)[1..] == xs[1..] + ys;
      RunConcat(Next(s, xs[0].0, xs[0].1), xs[1..], ys);
    }
  }

  /** In every interleaving: a closed statement stays closed, and nothing is sent once a close() has returned, unless
      the mutex was misused before. */
  lemma ClosedForGood(before: seq<(Thread, Choice)>, after: seq<(Thread, Choice)>)
    ensures var s := Run(Fresh(), before); var u := Run(Fresh(), before + after);
            (s.v.closed ==> u.v.closed) && (s.v.closeReturned ==> s.v.closed)
            && (u.v.sentLate ==> u.v.misused) && (NoPrepared(before + after) ==> !u.v.sentLate)
  {
    hide Next, Run, NoPrepared;
    FreshInv();
    RunKeepsInv(Fresh(), before);
    RunKeepsInv(Run(Fresh(), before), after);
    RunConcat(Fresh(), before, after);
    if NoPrepared(before + after) {
      NeverLeft(Fresh(), before + after);
    }
  }

  /** Nobody executes a prepared batch. */
  predicate NoPrepared(steps: seq<(Thread, Choice)>) {
    forall i :: 0 <= i < |steps| ==> steps[i].1 != Call(ExecutePrepared)
  }

  predicate OfPrepared(pc: Pc) {
    pc.Returning? || (Starting(pc) && pc.k == Prepared)
  }

  ghost predicate Plain(s: Shared) {
    !s.v.everLeft && forall t: Thread :: !OfPrepared(At(s, t))
  }

  predicate StaysPlain(v: Vars, r: (Vars, Pc)) {
    !OfPrepared(r.1) && r.0.everLeft == v.everLeft
  }

  lemma ExecutionStaysPlain(v: Vars, t: Thread, c: Choice, pc: Pc)
    requires !OfPrepared(pc)
    ensures Starting(pc) ==> StaysPlain(v, StartStep(v, t, c, pc))
    ensures Finishing(pc) ==> StaysPlain(v, FinishStep(v, t, pc))
  {
  }

  lemma CloseStaysPlain(v: Vars, t: Thread, pc: Pc)
    requires Closing(pc)
    ensures StaysPlain(v, CloseStep(v, t, pc))
  {
  }

  lemma CancelStaysPlain(v: Vars, t: Thread, c: Choice, pc: Pc)
    requires Cancelling(pc)
    ensures StaysPlain(v, CancelStep(v, t, c, pc))
  {
  }

  lemma PcStaysPlain(v: Vars, t: Thread, c: Choice, pc: Pc)
    requires !OfPrepared(pc) && c != Call(ExecutePrepared)
    ensures StaysPlain(v, Step(v, t, c, pc))
  {
    hide StartStep, FinishStep, CloseStep, CancelStep;
    ExecutionStaysPlain(v, t, c, pc);
    if Closing(pc) {
      CloseStaysPlain(v, t, pc);
    } else if Cancelling(pc) {
      CancelStaysPlain(v, t, c, pc);
    }
  }

  lemma StepStaysPlain(s: Shared, t: Thread, c: Choice)
    requires Plain(s) && c != Call(ExecutePrepared)
    ensures Plain(Next(s, t, c))
  {
    hide Step, OfPrepared;
    PcStaysPlain(s.v, t, c, At(s, t));
    var s' := Next(s, t, c);
    forall u: Thread ensures !OfPrepared(At(s', u)) {
      if u != t {
        assert At(s', u) == At(s, u);
      }
    }
  }

  lemma {:induction false} NeverLeft(s: Shared, steps: seq<(Thread, Choice)>)
    requires Plain(s) && NoPrepared(steps)
    ensures !Run(s, steps).v.everLeft
    decreases steps
  {
    hide Next, OfPrepared;
    if steps != [] {
      StepStaysPlain(s, steps[0].0, steps[0].1);
      NeverLeft(Next(s, steps[0].0, steps[0].1), steps[1..]);
    }
  }

  /** In every interleaving: as long as the mutex is not misused, each lock is matched by one unlock of the same thread
      and no thread waits for a mutex it holds; with the mutex free, `executing` is set exactly if a prepared batch
      succeeded and no epilogue ran since. Without prepared batches that means at rest, and no misuse ever. */
  lemma MutexDiscipline(steps: seq<(Thread, Choice)>, t: Thread)
    ensures var s := Run(Fresh(), steps);
            (!s.v.misused ==>
               && (s.v.holder == None ==> (s.v.executing <==> s.v.left) && s.v.locks == s.v.unlocks)
               && s.v.locks <= s.v.unlocks + 1
               && (At(s, t).Enter? || At(s, t).CloseEnter? || At(s, t) == Idle ==> s.v.holder != Some(t)))
            && (s.v.misused ==> s.v.everLeft)
            && (NoPrepared(steps) ==> !s.v.misused && (s.v.holder == None ==> !s.v.executing && !s.v.timedOut))
  {
    hide Next, Run, NoPrepared;
    FreshInv();
    RunKeepsInv(Fresh(), steps);
    if NoPrepared(steps) {
      NeverLeft(Fresh(), steps);
    }
  }

  /** A thread about to unlock after an epilogue leaves both flags down. */
  lemma LeavesAtRest(steps: seq<(Thread, Choice)>, t: Thread)
    ensures var s := Run(Fresh(), steps);
            !s.v.misused && At(s, t).Leaving? ==> !s.v.executing && !s.v.timedOut && s.v.holder == Some(t)
  {
    hide Next, Run;
    FreshInv();
    RunKeepsInv(Fresh(), steps);
    var s := Run(Fresh(), steps);
    if !s.v.misused {
      assert Holds(At(s, t)) <==> s.v.holder == Some(t);
    }
  }

  // ---------------------------------------------------------------- the double unlock

  const GOES_WELL: Choice := Outcome(NoError)
  const FAILS: Choice := Outcome(Error(false, false))

  ghost function Steps(s: Shared, t: Thread, cs: seq<Choice>): Shared
    decreases cs
  {
    if cs == [] then s else Steps(Next(s, t, cs[0]), t, cs[1..])
  }

  function ByThread(t: Thread, cs: seq<Choice>): (r: seq<(Thread, Choice)>)
    ensures |r| == |cs|
  {
    seq(|cs|, i requires 0 <= i < |cs| => (t, cs[i]))
  }

  lemma {:induction false} StepsAreRun(s: Shared, t: Thread, cs: seq<Choice>)
    ensures Steps(s, t, cs) == Run(s, ByThread(t, cs))
    decreases cs
  {
    hide Next;
    if cs != [] {
      assert ByThread(t, cs)[1..] == ByThread(t, cs[1..]);
      StepsAreRun(Next(s, t, cs[0]), t, cs[1..]);
    }
  }

  lemma StepsFirst(s: Shared, t: Thread, c: Choice, cs: seq<Choice>)
    ensures Steps(s, t, [c] + cs) == Steps(Next(s, t, c), t, cs)
    ensures Steps(s, t, []) == s
  {
    assert ([c] + cs)[1..] == cs;
  }

  /** A whole `cancel` by one thread, in which the KILL, if it is sent, fails. */
  const CANCEL: seq<Choice> :=
    [Call(Cancel)] + ([GOES_WELL] + ([GOES_WELL] + ([FAILS] + ([GOES_WELL] + ([GOES_WELL] + [])))))

  lemma CancelOpens(s: Shared, t: Thread)
    requires s.v.holder == None && At(s, t) == Idle && !s.v.closed
    ensures var n := Next(Next(Next(s, t, Call(Cancel)), t, GOES_WELL), t, GOES_WELL);
            && At(n, t) == CancelLook(true) && n.v.holder == Some(t)
            && n.v.executing == s.v.executing && n.v.misused == s.v.misused
  {
    var s1 := Next(s, t, Call(Cancel));
    assert At(s1, t) == CancelCheck;
    var s2 := Next(s1, t, GOES_WELL);
    assert At(s2, t) == CancelTry;
  }

  lemma CancelCloses(s: Shared, t: Thread)
    requires s.v.holder == Some(t) && At(s, t) == CancelLook(true) && !s.v.misused
    ensures Next(Next(Next(s, t, FAILS), t, GOES_WELL), t, GOES_WELL).v.misused <==> s.v.executing
  {
    var s1 := Next(s, t, FAILS);
    assert At(s1, t) == if s.v.executing then CancelThrown(true) else CancelEnd(true);
    var s2 := Next(s1, t, GOES_WELL);
    assert At(s2, t) == (if s.v.executing then CancelAgain else Idle) && s2.v.holder == None && !s2.v.misused;
  }

  lemma CancelOnClosed(s: Shared, t: Thread)
    requires At(s, t) == Idle && s.v.closed
    ensures var n := Next(Next(s, t, Call(Cancel)), t, GOES_WELL); At(n, t) == Idle && n.v.misused == s.v.misused
  {
    assert At(Next(s, t, Call(Cancel)), t) == CancelCheck;
  }

  lemma IdleWaits(s: Shared, t: Thread, e: Error)
    requires At(s, t) == Idle
    ensures var n := Next(s, t, Outcome(e)); n.v == s.v && At(n, t) == Idle
  {
  }

  lemma CancelUnfolds(s: Shared, t: Thread)
    ensures Steps(s, t, CANCEL)
         == (var n := Next(Next(Next(s, t, Call(Cancel)), t, GOES_WELL), t, GOES_WELL);
             Next(Next(Next(n, t, FAILS), t, GOES_WELL), t, GOES_WELL))
  {
    hide Next, Steps;
    var s1 := Next(s, t, Call(Cancel));
    var s2 := Next(s1, t, GOES_WELL);
    var s3 := Next(s2, t, GOES_WELL);
    var s4 := Next(s3, t, FAILS);
    var s5 := Next(s4, t, GOES_WELL);
    StepsFirst(s, t, Call(Cancel), [GOES_WELL] + ([GOES_WELL] + ([FAILS] + ([GOES_WELL] + ([GOES_WELL] + [])))));
    StepsFirst(s1, t, GOES_WELL, [GOES_WELL] + ([FAILS] + ([GOES_WELL] + ([GOES_WELL] + []))));
    StepsFirst(s2, t, GOES_WELL, [FAILS] + ([GOES_WELL] + ([GOES_WELL] + [])));
    StepsFirst(s3, t, FAILS, [GOES_WELL] + ([GOES_WELL] + []));
    StepsFirst(s4, t, GOES_WELL, [GOES_WELL] + []);
    StepsFirst(s5, t, GOES_WELL, []);
    StepsFirst(Next(s5, t, GOES_WELL), t, GOES_WELL, []);
  }

  /** With the mutex free, a `cancel` whose KILL fails unlocks twice exactly if the statement is open and `executing` is
      set. */
  lemma CancelMisusesIff(s: Shared, t: Thread)
    requires !s.v.misused && s.v.holder == None && At(s, t) == Idle
    ensures Steps(s, t, CANCEL).v.misused <==> s.v.executing && !s.v.closed
  {
    hide Next, Steps;
    CancelUnfolds(s, t);
    if s.v.closed {
      CancelOnClosed(s, t);
      var n := Next(Next(s, t, Call(Cancel)), t, GOES_WELL);
      var n1 := Next(n, t, GOES_WELL);
      var n2 := Next(n1, t, FAILS);
      IdleWaits(n, t, NoError);
      IdleWaits(n1, t, Error(false, false));
      IdleWaits(n2, t, NoError);
      IdleWaits(Next(n2, t, GOES_WELL), t, NoError);
    } else {
      CancelOpens(s, t);
      CancelCloses(Next(Next(Next(s, t, Call(Cancel)), t, GOES_WELL), t, GOES_WELL), t);
    }
  }

  /** In every run that has not misused the mutex, that is: exactly if the statement is open and the last execution to
      end was a prepared batch that succeeded. */
  lemma MisuseFollowsIff(steps: seq<(Thread, Choice)>, t: Thread)
    requires var s := Run(Fresh(), steps); !s.v.misused && s.v.holder == None && At(s, t) == Idle
    ensures var s := Run(Fresh(), steps);
            Run(Fresh(), steps + ByThread(t, CANCEL)).v.misused <==> s.v.left && !s.v.closed
  {
    hide Next, Run, Steps, CANCEL;
    var s := Run(Fresh(), steps);
    MutexDiscipline(steps, t);
    CancelMisusesIff(s, t);
    StepsAreRun(s, t, CANCEL);
    RunConcat(Fresh(), steps, ByThread(t, CANCEL));
  }

  /** A whole prepared batch by one thread, from the call to the return, that succeeds. */
  const PREPARED: seq<Choice> :=
    [Call(ExecutePrepared)] + ([GOES_WELL] + ([GOES_WELL] + ([GOES_WELL]
      + ([GOES_WELL] + ([GOES_WELL] + ([GOES_WELL] + ([GOES_WELL] + [])))))))

  lemma PreparedEnters(s: Shared, t: Thread)
    requires s.v.holder == None && At(s, t) == Idle && !s.v.closed
    ensures var n := Next(Next(Next(Next(s, t, Call(ExecutePrepared)), t, GOES_WELL), t, GOES_WELL), t, GOES_WELL);
            At(n, t) == Flagged(Prepared) && n.v.holder == Some(t) && !n.v.closed && n.v.misused == s.v.misused
  {
    var s1 := Next(s, t, Call(ExecutePrepared));
    assert At(s1, t) == BatchCheck(Prepared);
    var s2 := Next(s1, t, GOES_WELL);
    assert At(s2, t) == Enter(Prepared);
    var s3 := Next(s2, t, GOES_WELL);
    assert At(s3, t) == Locked(Prepared);
  }

  lemma PreparedReturns(s: Shared, t: Thread)
    requires s.v.holder == Some(t) && At(s, t) == Flagged(Prepared) && !s.v.closed
    ensures var n := Next(Next(Next(Next(s, t, GOES_WELL), t, GOES_WELL), t, GOES_WELL), t, GOES_WELL);
            At(n, t) == Idle && n.v.holder == None && !n.v.closed && n.v.left && n.v.misused == s.v.misused
  {
    var s1 := Next(s, t, GOES_WELL);
    assert At(s1, t) == Open(Prepared);
    var s2 := Next(s1, t, GOES_WELL);
    assert At(s2, t) == Ready(Prepared);
    var s3 := Next(s2, t, GOES_WELL);
    assert At(s3, t) == Returning;
  }

  lemma PreparedUnfolds(s: Shared, t: Thread)
    ensures Steps(s, t, PREPARED)
         == (var n := Next(Next(Next(Next(s, t, Call(ExecutePrepared)), t, GOES_WELL), t, GOES_WELL), t, GOES_WELL);
             Next(Next(Next(Next(n, t, GOES_WELL), t, GOES_WELL), t, GOES_WELL), t, GOES_WELL))
  {
    hide Next, Steps;
    var rest3 := [GOES_WELL] + ([GOES_WELL] + ([GOES_WELL] + ([GOES_WELL] + [])));
    var s1 := Next(s, t, Call(ExecutePrepared));
    var s2 := Next(s1, t, GOES_WELL);
    var s3 := Next(s2, t, GOES_WELL);
    var n := Next(s3, t, GOES_WELL);
    StepsFirst(s, t, Call(ExecutePrepared), [GOES_WELL] + ([GOES_WELL] + ([GOES_WELL] + rest3)));
    StepsFirst(s1, t, GOES_WELL, [GOES_WELL] + ([GOES_WELL] + rest3));
    StepsFirst(s2, t, GOES_WELL, [GOES_WELL] + rest3);
    StepsFirst(s3, t, GOES_WELL, rest3);
    var n1 := Next(n, t, GOES_WELL);
    var n2 := Next(n1, t, GOES_WELL);
    var n3 := Next(n2, t, GOES_WELL);
    StepsFirst(n, t, GOES_WELL, [GOES_WELL] + ([GOES_WELL] + ([GOES_WELL] + [])));
    StepsFirst(n1, t, GOES_WELL, [GOES_WELL] + ([GOES_WELL] + []));
    StepsFirst(n2, t, GOES_WELL, [GOES_WELL] + []);
    StepsFirst(n3, t, GOES_WELL, []);
    StepsFirst(Next(n3, t, GOES_WELL), t, GOES_WELL, []);
  }

  /** It does happen: one prepared batch, then one `cancel` whose KILL fails. */
  lemma MisuseExample(t: Thread)
    ensures Run(Fresh(), ByThread(t, PREPARED) + ByThread(t, CANCEL)).v.misused
  {
    hide Next, Run, Steps, CANCEL, PREPARED;
    var s := Fresh();
    PreparedUnfolds(s, t);
    PreparedEnters(s, t);
    PreparedReturns(Next(Next(Next(Next(s, t, Call(ExecutePrepared)), t, GOES_WELL), t, GOES_WELL), t, GOES_WELL), t);
    StepsAreRun(s, t, PREPARED);
    MisuseFollowsIff(ByThread(t, PREPARED), t);
  }
}
