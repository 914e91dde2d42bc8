/** The part of the connection object that changes: its dirty bits and the attributes behind them. */
module Connection {
  import opened Text
  import opened SessionState
  import S = SessionState
  import opened Savepoints

  class MariaDbConnection {
    const defaults: Defaults
    var autocommit: bool
    var recordedAutocommit: bool
    var readOnly: bool
    var isolation: int
    var database: string
    var recordedDatabase: string
    var stateFlag: bv8
    var savepointCount: nat

    constructor (d: Defaults)
      ensures defaults == d && View() == Fresh(d) && savepointCount == 0
    {
      defaults := d;
      autocommit, recordedAutocommit := d.autocommit, d.autocommit;
      database, recordedDatabase := d.database, d.database;
      readOnly, isolation, stateFlag, savepointCount := false, d.isolation, 0, 0;
    }

    function View(): Session
      reads this
    {
      Session(autocommit, recordedAutocommit, readOnly, isolation, database, recordedDatabase, stateFlag)
    }

    lemma Law(op: Op)
      requires !op.ResetAll?
      ensures Sound(View(), defaults) ==>
                (Sound(Apply(View(), defaults, op), defaults)
                 <==> !(op.ReadOnly? && !op.value && op.r == FailedBefore && readOnly))
    {
      hide Sound, Apply;
      if Sound(View(), defaults) {
        SetterSoundIff(View(), defaults, op);
      }
    }

    lemma ResetLaw(useComReset: bool, replies: ResetReplies)
      ensures Inv(View(), defaults) ==>
                var (t, ok) := S.Reset(View(), defaults, useComReset, replies);
                (ok ==> t == Fresh(defaults))
                && (replies.autocommit != FailedAfter && replies.database != FailedAfter ==> Inv(t, defaults))
    {
      hide S.Reset, Sound;
      if Inv(View(), defaults) {
        ResetRestoresIff(View(), defaults, useComReset, replies);
        NotMissedAfter(View(), defaults, useComReset, replies);
        if replies.autocommit != FailedAfter && replies.database != FailedAfter {
          ResetKeepsInv(View(), defaults, useComReset, replies);
        }
      }
    }

    method SetAutoCommit(autoCommit: bool, r: Reply) returns (ok: bool)
      modifies this
      ensures savepointCount == old(savepointCount)
      ensures (View(), ok) == S.SetAutoCommit(old(View()), autoCommit, r)
      ensures old(Sound(View(), defaults)) ==> Sound(View(), defaults)
    {
      hide Has, With, Without, Sound;
      Law(AutoCommit(autoCommit, r));
      if autoCommit == recordedAutocommit {
        return true;
      }
      stateFlag := With(stateFlag, AutoCommitBit);
      if Applied(r) {
        autocommit := autoCommit;
      }
      if r == Done {
        recordedAutocommit := autoCommit;
      }
      return r == Done;
    }

    method SetReadOnly(value: bool, r: Reply) returns (ok: bool)
      modifies this
      ensures savepointCount == old(savepointCount)
      ensures (View(), ok) == S.SetReadOnly(old(View()), value, r)
      ensures old(Sound(View(), defaults)) ==>
                (Sound(View(), defaults) <==> value || r != FailedBefore || !old(readOnly))
    {
      hide Has, With, Without, Sound;
      Law(ReadOnly(value, r));
      if value {
        stateFlag := With(stateFlag, ReadOnlyBit);
      } else {
        stateFlag := Without(stateFlag, ReadOnlyBit);
      }
      if Applied(r) {
        readOnly := value;
      }
      return r == Done;
    }

    method SetTransactionIsolation(level: int, r: Reply) returns (ok: bool)
      modifies this
      ensures savepointCount == old(savepointCount)
      ensures (View(), ok) == S.SetTransactionIsolation(old(View()), level, r)
      ensures old(Sound(View(), defaults)) ==> Sound(View(), defaults)
    {
      hide Has, With, Without, Sound;
      Law(Isolation(level, r));
      stateFlag := With(stateFlag, IsolationBit);
      if !KnownLevel(level) {
        return false;
      }
      if Applied(r) {
        isolation := level;
      }
      return r == Done;
    }

    method SetSchema(schema: string, r: Reply) returns (ok: bool)
      modifies this
      ensures savepointCount == old(savepointCount)
      ensures (View(), ok) == S.SetSchema(old(View()), schema, r)
      ensures old(Sound(View(), defaults)) ==> Sound(View(), defaults)
    {
      hide Has, With, Without, Sound;
      Law(Schema(schema, r));
      if schema == "" {
        return false;
      }
      stateFlag := With(stateFlag, DatabaseBit);
      SetCatalog(schema, r);
      return r == Done;
    }

    method SetCatalog(schema: string, r: Reply)
      modifies this
      ensures savepointCount == old(savepointCount)
      ensures View() == S.SetCatalog(old(View()), schema, r)
    {
      if Applied(r) {
        database := schema;
      }
      if r == Done {
        recordedDatabase := schema;
      }
    }

    method ResetDatabase(r: Reply) returns (ok: bool)
      modifies this
      ensures savepointCount == old(savepointCount)
      ensures (View(), ok) == S.ResetDatabase(old(View()), defaults, r)
    {
      hide Has, With, Without;
      if recordedDatabase == defaults.database {
        return true;
      }
      SetCatalog(defaults.database, r);
      return r == Done;
    }

    method ProtocolReset(replies: ResetReplies) returns (ok: bool)
      modifies this
      ensures savepointCount == old(savepointCount)
      ensures View() == (if Applied(replies.server) then ServerReset(old(View()), defaults, replies) else old(View()))
      ensures ok == (replies.server == Done)
    {
      hide Has, With, Without;
      if Applied(replies.server) {
        autocommit := if replies.restoresAutocommit then defaults.autocommit else autocommit;
        database := if replies.restoresDatabase then defaults.database else database;
        isolation := defaults.isolation;
      }
      return replies.server == Done;
    }

    method Reset(useComReset: bool, replies: ResetReplies) returns (ok: bool)
      modifies this
      ensures savepointCount == old(savepointCount)
      ensures (View(), ok) == S.Reset(old(View()), defaults, useComReset, replies)
      ensures old(Inv(View(), defaults)) && ok ==> View() == Fresh(defaults)
      ensures old(Inv(View(), defaults)) && replies.autocommit != FailedAfter && replies.database != FailedAfter ==>
                Inv(View(), defaults)
    {
      hide ServerReset, S.RestoreMarked, Has, Missed, Sound;
      ResetLaw(useComReset, replies);
      if useComReset {
        ok := ProtocolReset(replies);
        if !ok {
          return;
        }
      }
      ok := true;
      if stateFlag != 0 {
        ok := RestoreMarked(useComReset, replies);
      }
    }

    /** The body of the try block in `reset`. */
    method RestoreMarked(useComReset: bool, replies: ResetReplies) returns (ok: bool)
      modifies this
      ensures savepointCount == old(savepointCount)
      ensures (View(), ok) == S.RestoreMarked(old(View()), defaults, useComReset, replies)
    {
      hide Has, S.RestoreAutoCommit, S.RestoreDatabase, S.RestoreReadOnly, S.RestoreIsolation;
      if Has(stateFlag, NetworkTimeoutBit) {
        return false;
      }
      ok := RestoreAutoCommit(replies.autocommit);
      if !ok {
        return;
      }
      ok := RestoreDatabase(replies.database);
      if !ok {
        return;
      }
      RestoreReadOnly();
      ok := RestoreIsolation(useComReset, replies.isolation);
      if ok {
        stateFlag := 0;
      }
    }

    method RestoreAutoCommit(r: Reply) returns (ok: bool)
      modifies this
      ensures savepointCount == old(savepointCount)
      ensures (View(), ok) == S.RestoreAutoCommit(old(View()), defaults, r)
    {
      hide Has, S.SetAutoCommit;
      ok := true;
      if Has(stateFlag, AutoCommitBit) {
        ok := SetAutoCommit(defaults.autocommit, r);
      }
    }

    method RestoreDatabase(r: Reply) returns (ok: bool)
      modifies this
      ensures savepointCount == old(savepointCount)
      ensures (View(), ok) == S.RestoreDatabase(old(View()), defaults, r)
    {
      hide Has, S.ResetDatabase;
      ok := true;
      if Has(stateFlag, DatabaseBit) {
        ok := ResetDatabase(r);
      }
    }

    method RestoreReadOnly()
      modifies this
      ensures savepointCount == old(savepointCount)
      ensures View() == S.RestoreReadOnly(old(View()))
    {
      hide Has, S.SetReadOnly;
      if Has(stateFlag, ReadOnlyBit) {
        var _ := SetReadOnly(false, Done);
      }
    }

    method RestoreIsolation(useComReset: bool, r: Reply) returns (ok: bool)
      modifies this
      ensures savepointCount == old(savepointCount)
      ensures (View(), ok) == S.RestoreIsolation(old(View()), defaults, useComReset, r)
    {
      hide Has, S.SetTransactionIsolation;
      ok := true;
      if !useComReset && Has(stateFlag, IsolationBit) {
        ok := SetTransactionIsolation(defaults.isolation, r);
      }
    }

    /** The number is used up whether or not the server accepts the statement. */
    method SetSavepoint(name: string, r: Reply) returns (sent: string, ok: bool)
      modifies this`savepointCount
      ensures sent == Identifier(name, old(savepointCount)) && savepointCount == old(savepointCount) + 1
      ensures ok == (r == Done)
    {
      var id := savepointCount;
      savepointCount := savepointCount + 1;
      return Identifier(name, id), r == Done;
    }

    /** The unnamed form has a name of its own. */
    method SetUnnamedSavepoint(r: Reply) returns (sent: string, ok: bool)
      modifies this`savepointCount
      ensures sent == "unnamed" + Decimal(old(savepointCount)) && savepointCount == old(savepointCount) + 1
      ensures ok == (r == Done)
    {
      sent, ok := SetSavepoint("unnamed", r);
    }
  }
}
