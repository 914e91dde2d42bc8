/** What the session holds after a run: for each attribute, what the latest call about it asked for. */
module SessionEffects {
  import opened Text
  import opened SessionState

  // ---------------------------------------------------------------- what one call sets

  /** How far a reset gets: past the server's own reset, the restoring of autocommit, and that of the database. */
  predicate PastServer(op: Op)
    requires op.ResetAll?
  {
    !op.useComReset || op.replies.server == Done
  }

  predicate RestoresAutocommit(s: Session, d: Defaults, op: Op)
    requires op.ResetAll?
  {
    PastServer(op) && s.flag != 0 && !Has(s.flag, NetworkTimeoutBit)
    && Has(s.flag, AutoCommitBit) && s.recordedAutocommit != d.autocommit
  }

  predicate PastAutocommit(s: Session, d: Defaults, op: Op)
    requires op.ResetAll?
  {
    PastServer(op) && s.flag != 0 && !Has(s.flag, NetworkTimeoutBit)
    && (RestoresAutocommit(s, d, op) ==> op.replies.autocommit == Done)
  }

  predicate RestoresDatabase(s: Session, d: Defaults, op: Op)
    requires op.ResetAll?
  {
    PastAutocommit(s, d, op) && Has(s.flag, DatabaseBit) && s.recordedDatabase != d.database
  }

  predicate PastDatabase(s: Session, d: Defaults, op: Op)
    requires op.ResetAll?
  {
    PastAutocommit(s, d, op) && (RestoresDatabase(s, d, op) ==> op.replies.database == Done)
  }

  predicate RestoresIsolation(s: Session, d: Defaults, op: Op)
    requires op.ResetAll?
  {
    PastDatabase(s, d, op) && !op.useComReset && Has(s.flag, IsolationBit)
  }

  predicate ServerRestores(op: Op)
    requires op.ResetAll?
  {
    op.useComReset && op.replies.server != FailedBefore
  }

  function AutocommitSetTo(s: Session, d: Defaults, op: Op): Option<bool> {
    match op
    case AutoCommit(value, r) => if value != s.recordedAutocommit && r != FailedBefore then Some(value) else None
    case ResetAll(_, replies) =>
      if (ServerRestores(op) && replies.restoresAutocommit)
         || (RestoresAutocommit(s, d, op) && replies.autocommit != FailedBefore)
      then Some(d.autocommit) else None
    case _ => None
  }

  function RecordedAutocommitSetTo(s: Session, d: Defaults, op: Op): Option<bool> {
    match op
    case AutoCommit(value, r) => if r == Done then Some(value) else None
    case ResetAll(_, replies) =>
      if RestoresAutocommit(s, d, op) && replies.autocommit == Done then Some(d.autocommit) else None
    case _ => None
  }

  function ReadOnlySetTo(s: Session, d: Defaults, op: Op): Option<bool> {
    match op
    case ReadOnly(value, r) => if r != FailedBefore then Some(value) else None
    case ResetAll(_, _) => if PastDatabase(s, d, op) && Has(s.flag, ReadOnlyBit) then Some(false) else None
    case _ => None
  }

  function IsolationSetTo(s: Session, d: Defaults, op: Op): Option<int> {
    match op
    case Isolation(level, r) =>
      if (level == 1 || level == 2 || level == 4 || level == 8) && r != FailedBefore then Some(level) else None
    case ResetAll(_, replies) =>
      var known := d.isolation == 1 || d.isolation == 2 || d.isolation == 4 || d.isolation == 8;
      if ServerRestores(op) || (RestoresIsolation(s, d, op) && known && replies.isolation != FailedBefore)
      then Some(d.isolation) else None
    case _ => None
  }

  function DatabaseSetTo(s: Session, d: Defaults, op: Op): Option<string> {
    match op
    case Schema(schema, r) => if schema != "" && r != FailedBefore then Some(schema) else None
    case ResetAll(_, replies) =>
      if (ServerRestores(op) && replies.restoresDatabase)
         || (RestoresDatabase(s, d, op) && replies.database != FailedBefore)
      then Some(d.database) else None
    case _ => None
  }

  function RecordedDatabaseSetTo(s: Session, d: Defaults, op: Op): Option<string> {
    match op
    case Schema(schema, r) => if schema != "" && r == Done then Some(schema) else None
    case ResetAll(_, replies) =>
      if RestoresDatabase(s, d, op) && replies.database == Done then Some(d.database) else None
    case _ => None
  }

  /** A reset that completes. */
  predicate Completes(s: Session, d: Defaults, op: Op)
    requires op.ResetAll?
  {
    PastServer(op)
    && (s.flag != 0 ==>
          PastDatabase(s, d, op)
          && (RestoresIsolation(s, d, op) ==>
                (d.isolation == 1 || d.isolation == 2 || d.isolation == 4 || d.isolation == 8)
                && op.replies.isolation == Done))
  }

  /** The bits: each setter marks its attribute before the call, even if the call fails; a completed reset clears
      all. */
  function BitSetTo(s: Session, d: Defaults, op: Op, bit: Attribute): Option<bool> {
    match op
    case AutoCommit(value, _) => if bit == AutoCommitBit && value != s.recordedAutocommit then Some(true) else None
    case ReadOnly(value, _) => if bit == ReadOnlyBit then Some(value) else None
    case Isolation(_, _) => if bit == IsolationBit then Some(true) else None
    case Schema(schema, _) => if bit == DatabaseBit && schema != "" then Some(true) else None
    case NetworkTimeout => None
    case ResetAll(_, _) =>
      if Completes(s, d, op) || (bit == ReadOnlyBit && PastDatabase(s, d, op)) then Some(false) else None
  }

  /** Whether the call returns without an exception. */
  function Succeeds(s: Session, d: Defaults, op: Op): bool {
    match op
    case AutoCommit(value, r) => value == s.recordedAutocommit || r == Done
    case ReadOnly(_, r) => r == Done
    case Isolation(level, r) => (level == 1 || level == 2 || level == 4 || level == 8) && r == Done
    case Schema(schema, r) => schema != "" && r == Done
    case NetworkTimeout => false
    case ResetAll(_, _) => Completes(s, d, op)
  }

  function Or<T>(o: Option<T>, otherwise: T): T {
    match o case None => otherwise case Some(v) => v
  }

  /** The session, but for its bits, after one call. */
  predicate Effect(s: Session, d: Defaults, op: Op, t: Session) {
    && t.autocommit == Or(AutocommitSetTo(s, d, op), s.autocommit)
    && t.recordedAutocommit == Or(RecordedAutocommitSetTo(s, d, op), s.recordedAutocommit)
    && t.readOnly == Or(ReadOnlySetTo(s, d, op), s.readOnly)
    && t.isolation == Or(IsolationSetTo(s, d, op), s.isolation)
    && t.database == Or(DatabaseSetTo(s, d, op), s.database)
    && t.recordedDatabase == Or(RecordedDatabaseSetTo(s, d, op), s.recordedDatabase)
  }

  /** The answer of a call. */
  function Answer(s: Session, d: Defaults, op: Op): bool {
    match op
    case AutoCommit(value, r) => SetAutoCommit(s, value, r).1
    case ReadOnly(value, r) => SetReadOnly(s, value, r).1
    case Isolation(level, r) => SetTransactionIsolation(s, level, r).1
    case Schema(schema, r) => SetSchema(s, schema, r).1
    case NetworkTimeout => SetNetworkTimeout(s).1
    case ResetAll(useComReset, replies) => Reset(s, d, useComReset, replies).1
  }

  ghost predicate BitsFit(s: Session, d: Defaults, op: Op, t: Session) {
    forall bit :: Has(t.flag, bit) == Or(BitSetTo(s, d, op, bit), Has(s.flag, bit))
  }

  lemma SetterEffect(s: Session, d: Defaults, op: Op)
    requires !op.ResetAll?
    ensures Effect(s, d, op, Apply(s, d, op)) && Answer(s, d, op) == Succeeds(s, d, op)
  {
    hide Has, With, Without;
  }

  lemma SetterBits(s: Session, d: Defaults, op: Op)
    requires !op.ResetAll?
    ensures BitsFit(s, d, op, Apply(s, d, op))
  {
    hide Has, With, Without;
    AllBitsApart();
  }

  // ---------------------------------------------------------------- reset, step by step

  ghost predicate SameBits(f: bv8, g: bv8) {
    forall bit :: Has(f, bit) == Has(g, bit)
  }

  lemma AutocommitStep(s: Session, d: Defaults, r: Reply)
    ensures var (t, ok) := RestoreAutoCommit(s, d, r);
            var sends := Has(s.flag, AutoCommitBit) && s.recordedAutocommit != d.autocommit;
            && t == s.(autocommit := if sends && r != FailedBefore then d.autocommit else s.autocommit,
                       recordedAutocommit := if sends && r == Done then d.autocommit else s.recordedAutocommit,
                       flag := t.flag)
            && ok == (sends ==> r == Done) && SameBits(t.flag, s.flag)
  {
    hide Has, With, Without;
    AllBitsApart();
  }

  lemma DatabaseStep(s: Session, d: Defaults, r: Reply)
    ensures var (t, ok) := RestoreDatabase(s, d, r);
            var sends := Has(s.flag, DatabaseBit) && s.recordedDatabase != d.database;
            && t == s.(database := if sends && r != FailedBefore then d.database else s.database,
                       recordedDatabase := if sends && r == Done then d.database else s.recordedDatabase)
            && ok == (sends ==> r == Done)
  {
    hide Has;
  }

  lemma ReadOnlyStep(s: Session)
    ensures var t := RestoreReadOnly(s);
            && t == s.(readOnly := if Has(s.flag, ReadOnlyBit) then false else s.readOnly, flag := t.flag)
            && forall bit :: Has(t.flag, bit) == (bit != ReadOnlyBit && Has(s.flag, bit))
  {
    hide Has, With, Without;
    AllBitsApart();
  }

  lemma IsolationStep(s: Session, d: Defaults, useComReset: bool, r: Reply)
    ensures var (t, ok) := RestoreIsolation(s, d, useComReset, r);
            var sends := !useComReset && Has(s.flag, IsolationBit);
            var known := d.isolation == 1 || d.isolation == 2 || d.isolation == 4 || d.isolation == 8;
            && t == s.(isolation := if sends && known && r != FailedBefore then d.isolation else s.isolation,
                       flag := t.flag)
            && ok == (sends ==> known && r == Done) && SameBits(t.flag, s.flag)
  {
    hide Has, With, Without;
    AllBitsApart();
  }

  /** What a reset has to show for a result `(t, ok)`. */
  ghost predicate ResetFits(s: Session, d: Defaults, op: Op, t: Session, ok: bool)
    requires op.ResetAll?
  {
    Effect(s, d, op, t) && ok == Completes(s, d, op) && BitsFit(s, d, op, t)
  }

  /** What the server's own reset leaves. */
  predicate Served(s: Session, d: Defaults, op: Op, s0: Session)
    requires op.ResetAll?
  {
    s0 == AfterServerReset(s, d, op.useComReset, op.replies)
  }

  lemma ZeroBits()
    ensures forall bit :: !Has(0, bit)
  {
    forall bit ensures !Has(0, bit) {
      ZeroHasNone(bit);
    }
  }

  lemma ServedIs(s: Session, d: Defaults, op: Op, s0: Session)
    requires op.ResetAll? && Served(s, d, op, s0)
    ensures var served := ServerRestores(op);
            && s0.autocommit == (if served && op.replies.restoresAutocommit then d.autocommit else s.autocommit)
            && s0.database == (if served && op.replies.restoresDatabase then d.database else s.database)
            && s0.isolation == (if served then d.isolation else s.isolation)
            && s0.recordedAutocommit == s.recordedAutocommit && s0.recordedDatabase == s.recordedDatabase
            && s0.readOnly == s.readOnly && s0.flag == s.flag
  {
  }

  /** A reset that stops before it restores anything, or has nothing to restore. */
  lemma NothingRestored(s: Session, d: Defaults, op: Op, s0: Session)
    requires op.ResetAll? && Served(s, d, op, s0)
    requires !PastServer(op) || s.flag == 0 || Has(s.flag, NetworkTimeoutBit)
    ensures Effect(s, d, op, s0)
  {
    hide Has, Served;
    ServedIs(s, d, op, s0);
    hide ServerRestores, PastServer, Effect;
    NotReached(s, d, op);
    EffectOfServer(s, d, op, s0);
  }

  lemma NotReached(s: Session, d: Defaults, op: Op)
    requires op.ResetAll? && (!PastServer(op) || s.flag == 0 || Has(s.flag, NetworkTimeoutBit))
    ensures !RestoresAutocommit(s, d, op) && !RestoresDatabase(s, d, op) && !RestoresIsolation(s, d, op)
    ensures !PastAutocommit(s, d, op) && !PastDatabase(s, d, op)
  {
    hide Has;
  }

  lemma EffectOfServer(s: Session, d: Defaults, op: Op, s0: Session)
    requires op.ResetAll? && !RestoresAutocommit(s, d, op) && !RestoresDatabase(s, d, op)
    requires !RestoresIsolation(s, d, op) && !PastDatabase(s, d, op)
    requires s0.autocommit == if ServerRestores(op) && op.replies.restoresAutocommit then d.autocommit else s.autocommit
    requires s0.database == if ServerRestores(op) && op.replies.restoresDatabase then d.database else s.database
    requires s0.isolation == if ServerRestores(op) then d.isolation else s.isolation
    requires s0.recordedAutocommit == s.recordedAutocommit && s0.recordedDatabase == s.recordedDatabase
    requires s0.readOnly == s.readOnly
    ensures Effect(s, d, op, s0)
  {
    hide Has, RestoresAutocommit, RestoresDatabase, RestoresIsolation, PastDatabase, ServerRestores;
  }

  lemma StopsAtServer(s: Session, d: Defaults, op: Op, s0: Session)
    requires op.ResetAll? && Served(s, d, op, s0) && !PastServer(op)
    ensures ResetFits(s, d, op, s0, false)
  {
    hide Has, Effect;
    NothingRestored(s, d, op, s0);
    ServedIs(s, d, op, s0);
    NotReached(s, d, op);
    hide Served, PastDatabase;
  }

  lemma NothingMarked(s: Session, d: Defaults, op: Op, s0: Session)
    requires op.ResetAll? && Served(s, d, op, s0) && PastServer(op) && s.flag == 0
    ensures ResetFits(s, d, op, s0, true)
  {
    hide Has, Effect;
    NothingRestored(s, d, op, s0);
    ServedIs(s, d, op, s0);
    ZeroBits();
    hide Served, PastDatabase;
  }

  lemma StopsAtTimeout(s: Session, d: Defaults, op: Op, s0: Session)
    requires op.ResetAll? && Served(s, d, op, s0) && PastServer(op) && s.flag != 0 && Has(s.flag, NetworkTimeoutBit)
    ensures ResetFits(s, d, op, s0, false)
  {
    hide Has, Effect;
    NothingRestored(s, d, op, s0);
    ServedIs(s, d, op, s0);
    NotReached(s, d, op);
    hide Served, PastDatabase;
  }

  /** Autocommit after its restoring step. */
  predicate Reached(s: Session, d: Defaults, op: Op, s0: Session, t: Session)
    requires op.ResetAll?
  {
    && Served(s, d, op, s0)
    && t.autocommit == (if RestoresAutocommit(s, d, op) && op.replies.autocommit != FailedBefore then d.autocommit
                        else s0.autocommit)
    && t.recordedAutocommit == Or(RecordedAutocommitSetTo(s, d, op), s.recordedAutocommit)
  }

  /** And the database after its own. */
  predicate ReachedDatabase(s: Session, d: Defaults, op: Op, s0: Session, t: Session)
    requires op.ResetAll?
  {
    && Reached(s, d, op, s0, t)
    && t.database == (if RestoresDatabase(s, d, op) && op.replies.database != FailedBefore then d.database
                      else s0.database)
    && t.recordedDatabase == Or(RecordedDatabaseSetTo(s, d, op), s.recordedDatabase)
  }

  lemma StopsAtAutocommit(s: Session, d: Defaults, op: Op, s0: Session, t: Session)
    requires op.ResetAll? && RestoresAutocommit(s, d, op) && op.replies.autocommit != Done
    requires Reached(s, d, op, s0, t) && SameBits(t.flag, s.flag)
    requires t == s0.(autocommit := t.autocommit, recordedAutocommit := t.recordedAutocommit, flag := t.flag)
    ensures ResetFits(s, d, op, t, false)
  {
    hide Has;
  }

  lemma StopsAtDatabase(s: Session, d: Defaults, op: Op, s0: Session, t: Session)
    requires op.ResetAll? && RestoresDatabase(s, d, op) && op.replies.database != Done
    requires ReachedDatabase(s, d, op, s0, t) && SameBits(t.flag, s.flag)
    requires t.readOnly == s.readOnly && t.isolation == s0.isolation
    ensures ResetFits(s, d, op, t, false)
  {
    hide Has;
  }

  /** What the last two steps leave. */
  predicate Ended(s: Session, d: Defaults, op: Op, s0: Session, t: Session, ok: bool)
    requires op.ResetAll?
  {
    var known := d.isolation == 1 || d.isolation == 2 || d.isolation == 4 || d.isolation == 8;
    var sends := RestoresIsolation(s, d, op);
    && t.readOnly == (if Has(s.flag, ReadOnlyBit) then false else s.readOnly)
    && t.isolation == (if sends && known && op.replies.isolation != FailedBefore then d.isolation else s0.isolation)
    && ok == (sends ==> known && op.replies.isolation == Done)
  }

  lemma EndEffect(s: Session, d: Defaults, op: Op, s0: Session, t: Session, ok: bool)
    requires op.ResetAll? && PastDatabase(s, d, op) && ReachedDatabase(s, d, op, s0, t) && Ended(s, d, op, s0, t, ok)
    ensures Effect(s, d, op, t)
  {
    hide Has;
    ServedIs(s, d, op, s0);
    hide Served, PastDatabase, RestoresAutocommit, RestoresDatabase, RestoresIsolation, ServerRestores;
  }

  lemma EndCompletes(s: Session, d: Defaults, op: Op, s0: Session, t: Session, ok: bool)
    requires op.ResetAll? && PastDatabase(s, d, op) && Ended(s, d, op, s0, t, ok)
    ensures ok == Completes(s, d, op)
  {
    hide Has;
  }

  lemma GetsToTheEnd(s: Session, d: Defaults, op: Op, s0: Session, t: Session, ok: bool)
    requires op.ResetAll? && PastDatabase(s, d, op) && ReachedDatabase(s, d, op, s0, t) && Ended(s, d, op, s0, t, ok)
    requires forall bit :: Has(t.flag, bit) == (!ok && bit != ReadOnlyBit && Has(s.flag, bit))
    ensures ResetFits(s, d, op, t, ok)
  {
    hide Has, Effect, Completes, PastDatabase, ReachedDatabase, Ended;
    EndEffect(s, d, op, s0, t, ok);
    EndCompletes(s, d, op, s0, t, ok);
  }

  lemma MarkedIs(s0: Session, d: Defaults, useComReset: bool, replies: ResetReplies)
    ensures var (s1, ok1) := RestoreAutoCommit(s0, d, replies.autocommit);
            var (s2, ok2) := RestoreDatabase(s1, d, replies.database);
            var (s3, ok3) := RestoreIsolation(RestoreReadOnly(s2), d, useComReset, replies.isolation);
            RestoreMarked(s0, d, useComReset, replies)
            == if Has(s0.flag, NetworkTimeoutBit) then (s0, false)
               else if !ok1 then (s1, false)
               else if !ok2 then (s2, false)
               else if !ok3 then (s3, false) else (s3.(flag := 0), true)
  {
    hide Has, RestoreAutoCommit, RestoreDatabase, RestoreReadOnly, RestoreIsolation;
  }

  lemma RestoreTail(s: Session, d: Defaults, op: Op, s0: Session, s2: Session)
    requires op.ResetAll? && PastDatabase(s, d, op) && ReachedDatabase(s, d, op, s0, s2)
    requires SameBits(s2.flag, s.flag) && s2.readOnly == s.readOnly && s2.isolation == s0.isolation
    ensures var (s4, ok) := RestoreIsolation(RestoreReadOnly(s2), d, op.useComReset, op.replies.isolation);
            ResetFits(s, d, op, if ok then s4.(flag := 0) else s4, ok)
  {
    hide Has, RestoreReadOnly, RestoreIsolation, ResetFits, Served, RecordedAutocommitSetTo, RecordedDatabaseSetTo;
    hide PastDatabase;
    var s3 := RestoreReadOnly(s2);
    ReadOnlyStep(s2);
    IsolationStep(s3, d, op.useComReset, op.replies.isolation);
    var (s4, ok) := RestoreIsolation(s3, d, op.useComReset, op.replies.isolation);
    ZeroBits();
    GetsToTheEnd(s, d, op, s0, if ok then s4.(flag := 0) else s4, ok);
  }

  lemma RestoreFromAutocommit(s: Session, d: Defaults, op: Op, s0: Session)
    requires op.ResetAll? && PastServer(op) && s.flag != 0 && Served(s, d, op, s0) && !Has(s.flag, NetworkTimeoutBit)
    ensures var (s1, ok1) := RestoreAutoCommit(s0, d, op.replies.autocommit);
            && SameBits(s1.flag, s.flag) && s1 == s0.(autocommit := s1.autocommit,
                 recordedAutocommit := s1.recordedAutocommit, flag := s1.flag)
            && Reached(s, d, op, s0, s1) && ok1 == PastAutocommit(s, d, op)
            && (!ok1 ==> ResetFits(s, d, op, s1, false))
  {
    hide Has, RestoreAutoCommit, ResetFits;
    AutocommitStep(s0, d, op.replies.autocommit);
    var (s1, ok1) := RestoreAutoCommit(s0, d, op.replies.autocommit);
    if !ok1 {
      StopsAtAutocommit(s, d, op, s0, s1);
    }
  }

  lemma RestoreFromDatabase(s: Session, d: Defaults, op: Op, s0: Session, s1: Session)
    requires op.ResetAll? && PastAutocommit(s, d, op) && Reached(s, d, op, s0, s1) && SameBits(s1.flag, s.flag)
    requires s1 == s0.(autocommit := s1.autocommit, recordedAutocommit := s1.recordedAutocommit, flag := s1.flag)
    ensures var (s2, ok2) := RestoreDatabase(s1, d, op.replies.database);
            && SameBits(s2.flag, s.flag) && s2.readOnly == s.readOnly && s2.isolation == s0.isolation
            && ReachedDatabase(s, d, op, s0, s2) && ok2 == PastDatabase(s, d, op)
            && (!ok2 ==> ResetFits(s, d, op, s2, false))
  {
    hide Has, RestoreDatabase, ResetFits, RecordedAutocommitSetTo, RestoresAutocommit;
    DatabaseStep(s1, d, op.replies.database);
    var (s2, ok2) := RestoreDatabase(s1, d, op.replies.database);
    if !ok2 {
      StopsAtDatabase(s, d, op, s0, s2);
    }
  }

  /** The restoring part, from the session that the server's reset left. */
  lemma RestoreEffect(s: Session, d: Defaults, op: Op, s0: Session)
    requires op.ResetAll? && PastServer(op) && s.flag != 0 && Served(s, d, op, s0)
    ensures var (t, ok) := RestoreMarked(s0, d, op.useComReset, op.replies); ResetFits(s, d, op, t, ok)
  {
    assert s0.flag == s.flag;
    hide Has, RestoreAutoCommit, RestoreDatabase, RestoreReadOnly, RestoreIsolation, RestoreMarked, ResetFits;
    hide Served, Reached, ReachedDatabase, PastAutocommit, PastDatabase, SameBits;
    MarkedIs(s0, d, op.useComReset, op.replies);
    if Has(s.flag, NetworkTimeoutBit) {
      StopsAtTimeout(s, d, op, s0);
    } else {
      RestoreFromAutocommit(s, d, op, s0);
      var (s1, ok1) := RestoreAutoCommit(s0, d, op.replies.autocommit);
      if ok1 {
        RestoreFromDatabase(s, d, op, s0, s1);
        var (s2, ok2) := RestoreDatabase(s1, d, op.replies.database);
        if ok2 {
          RestoreTail(s, d, op, s0, s2);
        }
      }
    }
  }

  lemma ResetEffect(s: Session, d: Defaults, op: Op)
    requires op.ResetAll?
    ensures ResetFits(s, d, op, Apply(s, d, op), Answer(s, d, op))
  {
    hide Has, RestoreMarked, Apply, ResetFits;
    ApplyReset(s, d, op);
    var s0 := AfterServerReset(s, d, op.useComReset, op.replies);
    if !PastServer(op) {
      StopsAtServer(s, d, op, s0);
    } else if s.flag == 0 {
      NothingMarked(s, d, op, s0);
    } else {
      RestoreEffect(s, d, op, s0);
    }
  }

  /** Every call does what it asks for and nothing else, in every session and for every outcome. */
  lemma CallEffect(s: Session, d: Defaults, op: Op)
    ensures Effect(s, d, op, Apply(s, d, op)) && BitsFit(s, d, op, Apply(s, d, op))
    ensures Answer(s, d, op) == Succeeds(s, d, op)
  {
    hide Apply, Effect, BitsFit, Answer;
    if op.ResetAll? {
      ResetEffect(s, d, op);
    } else {
      SetterEffect(s, d, op);
      SetterBits(s, d, op);
    }
  }

  // ---------------------------------------------------------------- runs

  /** `value` is what the latest call of the run that set something set, or what was there before. */
  ghost predicate Latest<T>(s: Session, d: Defaults, ops: seq<Op>, sets: (Session, Op) -> Option<T>, start: T, value: T)
  {
    || (&& value == start
        && forall i :: 0 <= i < |ops| ==> sets(RunOps(s, d, ops[..i]), ops[i]) == None)
    || (exists p :: 0 <= p < |ops| && sets(RunOps(s, d, ops[..p]), ops[p]) == Some(value)
          && forall i :: p < i < |ops| ==> sets(RunOps(s, d, ops[..i]), ops[i]) == None)
  }

  lemma {:induction false} RunLast(s: Session, d: Defaults, ops: seq<Op>)
    requires ops != []
    ensures RunOps(s, d, ops) == Apply(RunOps(s, d, ops[..|ops| - 1]), d, ops[|ops| - 1])
    decreases ops
  {
    hide Apply;
    var n := |ops| - 1;
    if n == 0 {
      assert ops[1..] == [] && ops[..0] == [];
    } else {
      assert ops[..n][1..] == ops[1..][..n - 1] && ops[..n][0] == ops[0];
      RunLast(Apply(s, d, ops[0]), d, ops[1..]);
    }
  }

  lemma {:induction false} LatestDecides<T>(s: Session, d: Defaults, ops: seq<Op>, get: Session -> T,
                                           sets: (Session, Op) -> Option<T>)
    requires forall t, op :: get(Apply(t, d, op)) == Or(sets(t, op), get(t))
    ensures Latest(s, d, ops, sets, get(s), get(RunOps(s, d, ops)))
    decreases |ops|
  {
    hide Apply, RunOps;
    if ops == [] {
      RunNone(s, d);
    } else {
      var n := |ops| - 1;
      var front := ops[..n];
      RunLast(s, d, ops);
      LatestDecides(s, d, front, get, sets);
      forall i | 0 <= i < n ensures front[..i] == ops[..i] && front[i] == ops[i] {
      }
      var t := RunOps(s, d, front);
      if sets(t, ops[n]).Some? {
        assert ops[..n] == front;
        assert sets(RunOps(s, d, ops[..n]), ops[n]) == Some(get(RunOps(s, d, ops)));
      }
    }
  }

  lemma RunNone(s: Session, d: Defaults)
    ensures RunOps(s, d, []) == s
  {
  }

  /** After every run each attribute of the server and each record of the driver holds what the latest call that set it
      asked for, and each bit what the latest call about it left. */
  lemma RunEffects(s: Session, d: Defaults, ops: seq<Op>, bit: Attribute)
    ensures var t := RunOps(s, d, ops);
            && Latest(s, d, ops, (u, op) => AutocommitSetTo(u, d, op), s.autocommit, t.autocommit)
            && Latest(s, d, ops, (u, op) => RecordedAutocommitSetTo(u, d, op),
                      s.recordedAutocommit, t.recordedAutocommit)
            && Latest(s, d, ops, (u, op) => ReadOnlySetTo(u, d, op), s.readOnly, t.readOnly)
            && Latest(s, d, ops, (u, op) => IsolationSetTo(u, d, op), s.isolation, t.isolation)
            && Latest(s, d, ops, (u, op) => DatabaseSetTo(u, d, op), s.database, t.database)
            && Latest(s, d, ops, (u, op) => RecordedDatabaseSetTo(u, d, op), s.recordedDatabase, t.recordedDatabase)
            && Latest(s, d, ops, (u, op) => BitSetTo(u, d, op, bit), Has(s.flag, bit), Has(t.flag, bit))
  {
    hide Apply, RunOps, Has, Latest, AutocommitSetTo, RecordedAutocommitSetTo, ReadOnlySetTo, IsolationSetTo;
    hide DatabaseSetTo, RecordedDatabaseSetTo, BitSetTo;
    forall u, op ensures Effect(u, d, op, Apply(u, d, op)) && BitsFit(u, d, op, Apply(u, d, op)) {
      CallEffect(u, d, op);
    }
    LatestDecides(s, d, ops, (u: Session) => u.autocommit, (u, op) => AutocommitSetTo(u, d, op));
    LatestDecides(s, d, ops, (u: Session) => u.recordedAutocommit, (u, op) => RecordedAutocommitSetTo(u, d, op));
    LatestDecides(s, d, ops, (u: Session) => u.readOnly, (u, op) => ReadOnlySetTo(u, d, op));
    LatestDecides(s, d, ops, (u: Session) => u.isolation, (u, op) => IsolationSetTo(u, d, op));
    LatestDecides(s, d, ops, (u: Session) => u.database, (u, op) => DatabaseSetTo(u, d, op));
    LatestDecides(s, d, ops, (u: Session) => u.recordedDatabase, (u, op) => RecordedDatabaseSetTo(u, d, op));
    LatestDecides(s, d, ops, (u: Session) => Has(u.flag, bit), (u, op) => BitSetTo(u, d, op, bit));
  }
}
