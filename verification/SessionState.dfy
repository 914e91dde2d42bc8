/** The session state of `MariaDbConnection`: which attributes may differ from their defaults, and `reset`. */
module SessionState {
  datatype Attribute = NetworkTimeoutBit | DatabaseBit | ReadOnlyBit | AutoCommitBit | IsolationBit

  /** The bit of `stateFlag` that belongs to an attribute. */
  function Mask(a: Attribute): bv8 {
    match a
    case NetworkTimeoutBit => 1
    case DatabaseBit => 2
    case ReadOnlyBit => 4
    case AutoCommitBit => 8
    case IsolationBit => 16
  }

  predicate Has(flag: bv8, a: Attribute) {
    flag & Mask(a) != 0
  }

  function With(flag: bv8, a: Attribute): bv8 {
    flag | Mask(a)
  }

  function Without(flag: bv8, a: Attribute): bv8 {
    flag & !Mask(a)
  }

  /** Setting or clearing one bit leaves the others alone. */
  lemma BitsApart(flag: bv8, a: Attribute, b: Attribute)
    ensures Has(With(flag, a), b) <==> a == b || Has(flag, b)
    ensures Has(Without(flag, a), b) <==> a != b && Has(flag, b)
  {
  }

  lemma ZeroHasNone(b: Attribute)
    ensures !Has(0, b)
  {
  }

  /** How a server call ends; a failing one may or may not have taken effect. */
  datatype Reply = Done | FailedBefore | FailedAfter

  datatype Defaults = Defaults(autocommit: bool, isolation: int, database: string)

  /** `autocommit` and `database` are the server's; the driver decides by its own records of them (`serverStatus`
      and `database` in the protocol), which a call that fails after taking effect leaves stale. */
  datatype Session = Session(
    autocommit: bool, recordedAutocommit: bool,
    readOnly: bool, isolation: int,
    database: string, recordedDatabase: string,
    flag: bv8)

  /** The session of a new connection. */
  function Fresh(d: Defaults): Session {
    Session(d.autocommit, d.autocommit, false, d.isolation, d.database, d.database, 0)
  }

  predicate Applied(r: Reply) {
    r != FailedBefore
  }

  predicate KnownLevel(level: int) {
    level in {1, 2, 4, 8}
  }

  function SetAutoCommit(s: Session, value: bool, r: Reply): (Session, bool) {
    if value == s.recordedAutocommit then (s, true)
    else (s.(flag := With(s.flag, AutoCommitBit),
             autocommit := if Applied(r) then value else s.autocommit,
             recordedAutocommit := if r == Done then value else s.recordedAutocommit), r == Done)
  }

  /** Clearing takes the bit away before the call. */
  function SetReadOnly(s: Session, value: bool, r: Reply): (Session, bool) {
    (s.(flag := if value then With(s.flag, ReadOnlyBit) else Without(s.flag, ReadOnlyBit),
        readOnly := if Applied(r) then value else s.readOnly), r == Done)
  }

  function SetTransactionIsolation(s: Session, level: int, r: Reply): (Session, bool) {
    var t := s.(flag := With(s.flag, IsolationBit));
    if !KnownLevel(level) then (t, false)
    else (t.(isolation := if Applied(r) then level else s.isolation), r == Done)
  }

  function SetCatalog(s: Session, schema: string, r: Reply): Session {
    s.(database := if Applied(r) then schema else s.database,
       recordedDatabase := if r == Done then schema else s.recordedDatabase)
  }

  function SetSchema(s: Session, schema: string, r: Reply): (Session, bool) {
    if schema == "" then (s, false)
    else (SetCatalog(s.(flag := With(s.flag, DatabaseBit)), schema, r), r == Done)
  }

  /** `setNetworkTimeout` always throws. */
  function SetNetworkTimeout(s: Session): (Session, bool) {
    (s, false)
  }

  /** How the server calls inside one `reset` end. The server's own reset may restore autocommit and the database,
      and does restore the isolation level. */
  datatype ResetReplies = ResetReplies(
    server: Reply, restoresAutocommit: bool, restoresDatabase: bool,
    autocommit: Reply, database: Reply, isolation: Reply)

  function ServerReset(s: Session, d: Defaults, replies: ResetReplies): Session {
    s.(autocommit := if replies.restoresAutocommit then d.autocommit else s.autocommit,
       database := if replies.restoresDatabase then d.database else s.database,
       isolation := d.isolation)
  }

  function ResetDatabase(s: Session, d: Defaults, r: Reply): (Session, bool) {
    if s.recordedDatabase == d.database then (s, true)
    else (SetCatalog(s, d.database, r), r == Done)
  }

  function RestoreAutoCommit(s: Session, d: Defaults, r: Reply): (Session, bool) {
    if Has(s.flag, AutoCommitBit) then SetAutoCommit(s, d.autocommit, r) else (s, true)
  }

  function RestoreDatabase(s: Session, d: Defaults, r: Reply): (Session, bool) {
    if Has(s.flag, DatabaseBit) then ResetDatabase(s, d, r) else (s, true)
  }

  function RestoreReadOnly(s: Session): Session {
    if Has(s.flag, ReadOnlyBit) then SetReadOnly(s, false, Done).0 else s
  }

  function RestoreIsolation(s: Session, d: Defaults, useComReset: bool, r: Reply): (Session, bool) {
    if !useComReset && Has(s.flag, IsolationBit) then SetTransactionIsolation(s, d.isolation, r) else (s, true)
  }

  /** The restoring part of `reset`, entered with some bit set. */
  function RestoreMarked(s: Session, d: Defaults, useComReset: bool, replies: ResetReplies): (Session, bool) {
    if Has(s.flag, NetworkTimeoutBit) then (s, false)
    else
      var (s1, ok1) := RestoreAutoCommit(s, d, replies.autocommit);
      if !ok1 then (s1, false)
      else
        var (s2, ok2) := RestoreDatabase(s1, d, replies.database);
        if !ok2 then (s2, false)
        else
          var (s3, ok3) := RestoreIsolation(RestoreReadOnly(s2), d, useComReset, replies.isolation);
          if !ok3 then (s3, false) else (s3.(flag := 0), true)
  }

  function Reset(s: Session, d: Defaults, useComReset: bool, replies: ResetReplies): (Session, bool) {
    var s0 := if useComReset && Applied(replies.server) then ServerReset(s, d, replies) else s;
    if useComReset && replies.server != Done then (s0, false)
    else if s0.flag == 0 then (s0, true)
    else RestoreMarked(s0, d, useComReset, replies)
  }

  // ---------------------------------------------------------------- dirty bits are sound

  /** Whatever differs from its default, on the server or in the driver's record, has its bit set. */
  predicate Sound(s: Session, d: Defaults) {
    && (s.autocommit != d.autocommit || s.recordedAutocommit != d.autocommit ==> Has(s.flag, AutoCommitBit))
    && (s.readOnly ==> Has(s.flag, ReadOnlyBit))
    && (s.isolation != d.isolation ==> Has(s.flag, IsolationBit))
    && (s.database != d.database || s.recordedDatabase != d.database ==> Has(s.flag, DatabaseBit))
    && !Has(s.flag, NetworkTimeoutBit)
  }

  /** The server differs from a default that the driver has on record: `reset` does not see the difference. */
  predicate Missed(s: Session, d: Defaults) {
    || (s.autocommit != d.autocommit && s.recordedAutocommit == d.autocommit)
    || (s.database != d.database && s.recordedDatabase == d.database)
  }

  /** Where the restoring part of `reset` starts. */
  function AfterServerReset(s: Session, d: Defaults, useComReset: bool, replies: ResetReplies): Session {
    if useComReset && Applied(replies.server) then ServerReset(s, d, replies) else s
  }

  datatype Op =
    | AutoCommit(value: bool, r: Reply)
    | ReadOnly(value: bool, r: Reply)
    | Isolation(level: int, r: Reply)
    | Schema(schema: string, r: Reply)
    | NetworkTimeout
    | ResetAll(useComReset: bool, replies: ResetReplies)

  function Apply(s: Session, d: Defaults, op: Op): Session {
    match op
    case AutoCommit(value, r) => SetAutoCommit(s, value, r).0
    case ReadOnly(value, r) => SetReadOnly(s, value, r).0
    case Isolation(level, r) => SetTransactionIsolation(s, level, r).0
    case Schema(schema, r) => SetSchema(s, schema, r).0
    case NetworkTimeout => SetNetworkTimeout(s).0
    case ResetAll(useComReset, replies) => Reset(s, d, useComReset, replies).0
  }

  lemma AllBitsApart()
    ensures forall flag, a, b :: Has(With(flag, a), b) <==> a == b || Has(flag, b)
    ensures forall flag, a, b :: Has(Without(flag, a), b) <==> a != b && Has(flag, b)
    ensures forall b :: !Has(0, b)
  {
    forall flag, a, b
      ensures Has(With(flag, a), b) <==> a == b || Has(flag, b)
      ensures Has(Without(flag, a), b) <==> a != b && Has(flag, b)
    {
      BitsApart(flag, a, b);
    }
    forall b ensures !Has(0, b) {
      ZeroHasNone(b);
    }
  }

  /** The setters keep the bits sound; the one exception is a failing attempt to clear read-only. */
  lemma SetterSoundIff(s: Session, d: Defaults, op: Op)
    requires Sound(s, d) && !op.ResetAll?
    ensures Sound(Apply(s, d, op), d) <==> !(op.ReadOnly? && !op.value && op.r == FailedBefore && s.readOnly)
  {
    hide Has, With, Without;
    AllBitsApart();
  }

  lemma RestoreAutoCommitEffect(s: Session, d: Defaults, r: Reply)
    requires Sound(s, d)
    ensures var (t, ok) := RestoreAutoCommit(s, d, r);
            Sound(t, d) && (ok ==> t == s.(
              autocommit := if s.recordedAutocommit == d.autocommit then s.autocommit else d.autocommit,
              recordedAutocommit := d.autocommit, flag := t.flag))
  {
    hide Has, With, Without;
    AllBitsApart();
  }

  lemma RestoreDatabaseEffect(s: Session, d: Defaults, r: Reply)
    requires Sound(s, d)
    ensures var (t, ok) := RestoreDatabase(s, d, r);
            Sound(t, d) && (ok ==> t == s.(
              database := if s.recordedDatabase == d.database then s.database else d.database,
              recordedDatabase := d.database))
  {
    hide Has, With, Without;
    AllBitsApart();
  }

  lemma LastStepsEffect(s: Session, d: Defaults, useComReset: bool, r: Reply)
    requires Sound(s, d) && (useComReset ==> s.isolation == d.isolation)
    ensures var (t, ok) := RestoreIsolation(RestoreReadOnly(s), d, useComReset, r);
            ok ==> t == s.(readOnly := false, isolation := d.isolation, flag := t.flag)
  {
    hide Has, With, Without;
    AllBitsApart();
  }

  /** What a completed restore leaves: defaults everywhere, except where the driver's record hid a difference. */
  lemma RestoreMarkedRestores(s: Session, d: Defaults, useComReset: bool, replies: ResetReplies)
    requires Sound(s, d) && (useComReset ==> s.isolation == d.isolation)
    ensures var (t, ok) := RestoreMarked(s, d, useComReset, replies);
            ok ==> t == Fresh(d).(
              autocommit := if s.recordedAutocommit == d.autocommit then s.autocommit else d.autocommit,
              database := if s.recordedDatabase == d.database then s.database else d.database)
  {
    hide Has, Sound, RestoreAutoCommit, RestoreDatabase, RestoreReadOnly, RestoreIsolation;
    RestoreAutoCommitEffect(s, d, replies.autocommit);
    var (s1, ok1) := RestoreAutoCommit(s, d, replies.autocommit);
    RestoreDatabaseEffect(s1, d, replies.database);
    var (s2, ok2) := RestoreDatabase(s1, d, replies.database);
    if ok1 && ok2 {
      LastStepsEffect(s2, d, useComReset, replies.isolation);
    }
  }

  /** A reset that completes gives a fresh session exactly when the driver's records hide no difference. */
  lemma ResetRestoresIff(s: Session, d: Defaults, useComReset: bool, replies: ResetReplies)
    requires Sound(s, d)
    ensures var (t, ok) := Reset(s, d, useComReset, replies);
            ok ==> t.flag == 0 && (t == Fresh(d) <==> !Missed(AfterServerReset(s, d, useComReset, replies), d))
  {
    hide Has, RestoreMarked;
    AllBitsApart();
    if !useComReset || replies.server == Done {
      RestoreMarkedRestores(AfterServerReset(s, d, useComReset, replies), d, useComReset, replies);
    }
  }

  /** The server's own reset hides nothing. */
  lemma NotMissedAfter(s: Session, d: Defaults, useComReset: bool, replies: ResetReplies)
    requires !Missed(s, d)
    ensures !Missed(AfterServerReset(s, d, useComReset, replies), d)
  {
  }

  /** The server's view and the driver's record agree as far as `reset` needs. */
  ghost predicate Inv(s: Session, d: Defaults) {
    Sound(s, d) && !Missed(s, d)
  }

  /** Clearing read-only is a plain assignment in the protocol and cannot fail; any other call may be refused. Only a
      call that is reported as failed although it took effect, on an attribute the driver keeps a record of, is out. */
  predicate Possible(op: Op) {
    match op
    case AutoCommit(_, r) => r != FailedAfter
    case ReadOnly(value, r) => value || r == Done
    case Schema(_, r) => r != FailedAfter
    case ResetAll(_, replies) => replies.autocommit != FailedAfter && replies.database != FailedAfter
    case _ => true
  }

  lemma SetterKeepsInv(s: Session, d: Defaults, op: Op)
    requires Inv(s, d) && Possible(op) && !op.ResetAll?
    ensures Inv(Apply(s, d, op), d)
  {
    hide Has, With, Without, Sound;
    SetterSoundIff(s, d, op);
  }

  lemma StepsKeepInv(s: Session, d: Defaults, replies: ResetReplies)
    requires Inv(s, d) && replies.autocommit != FailedAfter && replies.database != FailedAfter
    ensures Inv(ServerReset(s, d, replies), d)
    ensures Inv(RestoreDatabase(s, d, replies.database).0, d)
    ensures Inv(RestoreAutoCommit(s, d, replies.autocommit).0, d)
  {
    hide Has, With, Without;
    AllBitsApart();
  }

  lemma LastStepsKeepInv(s: Session, d: Defaults, useComReset: bool, r: Reply)
    requires Inv(s, d)
    ensures Inv(RestoreReadOnly(s), d)
    ensures Inv(RestoreIsolation(s, d, useComReset, r).0, d)
  {
    hide Has, With, Without;
    AllBitsApart();
  }

  lemma RestoreMarkedKeepsInv(s: Session, d: Defaults, useComReset: bool, replies: ResetReplies)
    requires Inv(s, d) && (useComReset ==> s.isolation == d.isolation)
    requires replies.autocommit != FailedAfter && replies.database != FailedAfter
    ensures Inv(RestoreMarked(s, d, useComReset, replies).0, d)
  {
    hide Has, Sound, RestoreAutoCommit, RestoreDatabase, RestoreReadOnly, RestoreIsolation;
    RestoreMarkedRestores(s, d, useComReset, replies);
    FreshInv(d);
    StepsKeepInv(s, d, replies);
    var s1 := RestoreAutoCommit(s, d, replies.autocommit).0;
    StepsKeepInv(s1, d, replies);
    var s2 := RestoreDatabase(s1, d, replies.database).0;
    LastStepsKeepInv(s2, d, useComReset, replies.isolation);
    LastStepsKeepInv(RestoreReadOnly(s2), d, useComReset, replies.isolation);
  }

  /** Wherever a reset stops, the invariant holds. */
  lemma ResetKeepsInv(s: Session, d: Defaults, useComReset: bool, replies: ResetReplies)
    requires Inv(s, d) && replies.autocommit != FailedAfter && replies.database != FailedAfter
    ensures Inv(Reset(s, d, useComReset, replies).0, d)
  {
    hide Has, RestoreMarked, Inv;
    StepsKeepInv(s, d, replies);
    if !useComReset || replies.server == Done {
      RestoreMarkedKeepsInv(AfterServerReset(s, d, useComReset, replies), d, useComReset, replies);
    }
  }

  function RunOps(s: Session, d: Defaults, ops: seq<Op>): Session
    decreases ops
  {
    if ops == [] then s else RunOps(Apply(s, d, ops[0]), d, ops[1..])
  }

  lemma {:induction false} RunKeepsInv(s: Session, d: Defaults, ops: seq<Op>)
    requires Inv(s, d) && forall i :: 0 <= i < |ops| ==> Possible(ops[i])
    ensures Inv(RunOps(s, d, ops), d)
    decreases ops
  {
    hide Inv, Apply;
    if ops != [] {
      var op := ops[0];
      assert Possible(op);
      if op.ResetAll? {
        ResetKeepsInv(s, d, op.useComReset, op.replies);
        ApplyReset(s, d, op);
      } else {
        SetterKeepsInv(s, d, op);
      }
      RunKeepsInv(Apply(s, d, op), d, ops[1..]);
    }
  }

  lemma ApplyReset(s: Session, d: Defaults, op: Op)
    requires op.ResetAll?
    ensures Apply(s, d, op) == Reset(s, d, op.useComReset, op.replies).0
  {
  }

  /** After any run, whatever was refused in it, a reset that completes gives back a fresh session. */
  lemma RunThenReset(d: Defaults, ops: seq<Op>, useComReset: bool, replies: ResetReplies)
    requires forall i :: 0 <= i < |ops| ==> Possible(ops[i])
    ensures var (t, ok) := Reset(RunOps(Fresh(d), d, ops), d, useComReset, replies);
            ok ==> t == Fresh(d)
  {
    hide RunOps, Reset, Has, Sound;
    FreshInv(d);
    RunKeepsInv(Fresh(d), d, ops);
    ResetRestoresIff(RunOps(Fresh(d), d, ops), d, useComReset, replies);
  }

  lemma FreshInv(d: Defaults)
    ensures Inv(Fresh(d), d)
  {
    hide Has, With, Without;
    AllBitsApart();
  }

  // ---------------------------------------------------------------- calls that take effect and still fail

  lemma StepsSound(s: Session, d: Defaults, replies: ResetReplies)
    requires Sound(s, d)
    ensures Sound(ServerReset(s, d, replies), d)
    ensures Sound(RestoreDatabase(s, d, replies.database).0, d)
    ensures Sound(RestoreAutoCommit(s, d, replies.autocommit).0, d)
  {
    hide Has, With, Without;
    AllBitsApart();
  }

  lemma LastStepsSound(s: Session, d: Defaults, useComReset: bool, r: Reply)
    requires Sound(s, d)
    ensures Sound(RestoreReadOnly(s), d)
    ensures Sound(RestoreIsolation(s, d, useComReset, r).0, d)
  {
    hide Has, With, Without;
    AllBitsApart();
  }

  /** A restore that stops before its end leaves the bits sound, whatever took effect. */
  lemma StoppedRestoreSound(s: Session, d: Defaults, useComReset: bool, replies: ResetReplies)
    requires Sound(s, d) && !RestoreMarked(s, d, useComReset, replies).1
    ensures Sound(RestoreMarked(s, d, useComReset, replies).0, d)
  {
    hide Has, Sound, RestoreAutoCommit, RestoreDatabase, RestoreReadOnly, RestoreIsolation;
    StepsSound(s, d, replies);
    var s1 := RestoreAutoCommit(s, d, replies.autocommit).0;
    StepsSound(s1, d, replies);
    var s2 := RestoreDatabase(s1, d, replies.database).0;
    LastStepsSound(s2, d, useComReset, replies.isolation);
    LastStepsSound(RestoreReadOnly(s2), d, useComReset, replies.isolation);
  }

  /** Some completed reset of the run left the server different from a default. */
  ghost predicate MissedOnTheWay(s: Session, d: Defaults, ops: seq<Op>)
    decreases ops
  {
    ops != [] && (MissedAt(s, d, ops[0]) || MissedOnTheWay(Apply(s, d, ops[0]), d, ops[1..]))
  }

  predicate MissedAt(s: Session, d: Defaults, op: Op) {
    op.ResetAll? && Reset(s, d, op.useComReset, op.replies).1
    && Missed(AfterServerReset(s, d, op.useComReset, op.replies), d)
  }

  lemma ResetSound(s: Session, d: Defaults, op: Op)
    requires Sound(s, d) && op.ResetAll? && !MissedAt(s, d, op)
    ensures Sound(Apply(s, d, op), d)
  {
    hide Has, RestoreMarked, Sound, Missed;
    ApplyReset(s, d, op);
    StepsSound(s, d, op.replies);
    var s0 := AfterServerReset(s, d, op.useComReset, op.replies);
    ResetRestoresIff(s, d, op.useComReset, op.replies);
    FreshInv(d);
    if (!op.useComReset || op.replies.server == Done) && !RestoreMarked(s0, d, op.useComReset, op.replies).1 {
      StoppedRestoreSound(s0, d, op.useComReset, op.replies);
    }
  }

  /** Any call may fail in any way, other than clearing read-only, which cannot fail. */
  predicate Thinkable(op: Op) {
    op.ReadOnly? && !op.value ==> op.r == Done
  }

  /** In every run, the bits are sound as long as no completed reset has missed something. */
  lemma {:induction false} RunSound(s: Session, d: Defaults, ops: seq<Op>)
    requires Sound(s, d) && (forall i :: 0 <= i < |ops| ==> Thinkable(ops[i])) && !MissedOnTheWay(s, d, ops)
    ensures Sound(RunOps(s, d, ops), d)
    decreases ops
  {
    hide Sound, Apply, MissedAt;
    if ops != [] {
      var op := ops[0];
      assert Thinkable(op);
      if op.ResetAll? {
        ResetSound(s, d, op);
      } else {
        SetterSoundIff(s, d, op);
      }
      RunSound(Apply(s, d, op), d, ops[1..]);
    }
  }

  /** After every run, with failures of every kind, in which no earlier reset missed anything: a reset that completes
      gives back a fresh session exactly if the driver's records hide no difference. */
  lemma RunThenResetIff(d: Defaults, ops: seq<Op>, useComReset: bool, replies: ResetReplies)
    requires (forall i :: 0 <= i < |ops| ==> Thinkable(ops[i])) && !MissedOnTheWay(Fresh(d), d, ops)
    ensures var s := RunOps(Fresh(d), d, ops);
            var (t, ok) := Reset(s, d, useComReset, replies);
            ok ==> (t == Fresh(d) <==> !Missed(AfterServerReset(s, d, useComReset, replies), d))
  {
    hide RunOps, Reset, Has, Sound, Missed, AfterServerReset;
    FreshInv(d);
    RunSound(Fresh(d), d, ops);
    ResetRestoresIff(RunOps(Fresh(d), d, ops), d, useComReset, replies);
  }

  /** The excluded case is real: a schema change that failed after taking effect survives a completed reset. */
  lemma StaleRecordExample(d: Defaults)
    requires d.database != "other"
    ensures var s := SetSchema(Fresh(d), "other", FailedAfter).0;
            var (t, ok) := Reset(s, d, false, ResetReplies(Done, false, false, Done, Done, Done));
            Sound(s, d) && ok && t.flag == 0 && t.database == "other"
  {
    hide Has, With, Without;
    AllBitsApart();
  }
}
