/** The `Results` object and the part of the protocol it talks to, method by method, against `MultiResults`. */
module Results {
  import opened Text
  import opened MultiResults

  class Protocol {
    var wire: seq<Packet>
    var activeStreamingResult: bool

    constructor (packets: seq<Packet>)
      ensures wire == packets && !activeStreamingResult
    {
      wire := packets;
      activeStreamingResult := false;
    }

    predicate HasMoreResults()
      reads this
    {
      wire != []
    }

    method RemoveActiveStreamingResult()
      modifies this
      ensures wire == old(wire) && !activeStreamingResult
    {
      activeStreamingResult := false;
    }
  }

  class ResultQueue {
    const protocol: Protocol
    var cmdInformation: CmdInfo
    var executionResults: seq<ResultSetId>
    var resultSet: Option<ResultSetId>
    var given2appRs: Option<ResultSetId>
    var haveResultInWire: bool
    var cachingLocally: bool
    var attached: bool                   // `statement` is not null

    constructor (p: Protocol)
      ensures protocol == p && attached && View() == Start(p.wire).(active := p.activeStreamingResult)
    {
      protocol := p;
      cmdInformation := NoInfo;
      executionResults := [];
      resultSet, given2appRs := None, None;
      haveResultInWire, cachingLocally := false, false;
      attached := true;
    }

    ghost function View(): State
      reads this, protocol
    {
      State(cmdInformation, executionResults, resultSet, given2appRs, haveResultInWire, cachingLocally,
            protocol.wire, protocol.activeStreamingResult)
    }

    method NoteWire(moreResultAvailable: bool)
      modifies this, protocol
      ensures attached == old(attached)
      ensures View() == Noted(old(View()), moreResultAvailable)
    {
      if haveResultInWire && !moreResultAvailable {
        protocol.RemoveActiveStreamingResult();
      }
      haveResultInWire := moreResultAvailable;
    }

    method AddStats(updateCount: int, moreResultAvailable: bool)
      modifies this, protocol
      ensures attached == old(attached)
      ensures View() == MultiResults.AddStats(old(View()), updateCount, moreResultAvailable)
    {
      NoteWire(moreResultAvailable);
      cmdInformation := AddStat(cmdInformation, updateCount, moreResultAvailable);
    }

    method AddStatsError()
      modifies this, protocol
      ensures attached == old(attached)
      ensures View() == MultiResults.AddStatsError(old(View()))
    {
      NoteWire(false);
      cmdInformation := AddStat(cmdInformation, EXECUTE_FAILED, false);
      protocol.RemoveActiveStreamingResult();
    }

    method AddResultSet(rs: ResultSetId, moreResultAvailable: bool)
      modifies this, protocol
      ensures attached == old(attached)
      ensures View() == MultiResults.AddResultSet(old(View()), rs, moreResultAvailable)
    {
      NoteWire(moreResultAvailable);
      executionResults := executionResults + [rs];
      cmdInformation := AddStat(cmdInformation, RESULT_SET_VALUE, moreResultAvailable);
    }

    /** `QueryProtocol::getResult`; true if it throws. */
    method GetResult() returns (threw: bool)
      requires protocol.wire != []
      modifies this, protocol
      ensures attached == old(attached)
      ensures (View(), threw) == MultiResults.GetResult(old(View()))
    {
      threw := false;
      var packet := protocol.wire[0];
      protocol.wire := protocol.wire[1..];
      match packet {
        case Count(n) =>
          AddStats(n, protocol.HasMoreResults());
        case Rows(rs) =>
          var pendingResults := protocol.HasMoreResults();
          AddResultSet(rs, pendingResults);
          if pendingResults {
            protocol.activeStreamingResult := true;
          }
        case Failed =>
          protocol.wire := [];
          AddStatsError();
          threw := true;
      }
    }

    method MoveToNextResult()
      requires protocol.wire != []
      modifies this, protocol
      ensures attached == old(attached)
      ensures View() == MultiResults.MoveToNextResult(old(View()))
    {
      if protocol.wire[0].Failed? {
        AddStatsError();
      }
    }

    method CommandEnd() returns (hasInfo: bool)
      requires cmdInformation.Multiple? ==> cmdInformation.idx < |cmdInformation.counts|
      modifies this
      ensures attached == old(attached)
      ensures View() == MultiResults.CommandEnd(old(View())) && (hasInfo <==> cmdInformation != NoInfo)
    {
      if cmdInformation != NoInfo {
        if |executionResults| > 0 && !IsCurrentUpdateCount(cmdInformation) {
          resultSet := Some(executionResults[0]);
          executionResults := executionResults[1..];
        } else {
          resultSet := None;
        }
        return true;
      }
      resultSet := None;
      return false;
    }

    /** What the application is handed, and what `getResultSet` answers from then on. */
    method ReleaseResultSet() returns (rs: Option<ResultSetId>)
      modifies this
      ensures attached == old(attached)
      ensures View() == Release(old(View())) && rs == old(resultSet) && GetResultSet() == old(resultSet)
    {
      given2appRs := resultSet;
      resultSet := None;
      return given2appRs;
    }

    function GetResultSet(): (rs: Option<ResultSetId>)
      reads this, protocol
      ensures rs == Visible(View())
    {
      if resultSet.Some? then resultSet else given2appRs
    }

    method CheckOut(leaving: ResultSetId)
      modifies this
      ensures attached == old(attached)
      ensures View() == MultiResults.CheckOut(old(View()), leaving)
      ensures old(given2appRs) != Some(leaving) ==> GetResultSet() == old(GetResultSet())
      ensures old(given2appRs) == Some(leaving) ==> GetResultSet() == resultSet
    {
      if given2appRs == Some(leaving) {
        given2appRs := None;
      }
    }

    /** `loadFully(false)`; true if it throws. */
    method LoadFully() returns (threw: bool)
      modifies this, protocol
      ensures attached == old(attached)
      ensures (View(), threw) == MultiResults.LoadFully(old(View()))
    {
      hide MultiResults.GetResult, MultiResults.MoveToNextResult;
      if haveResultInWire {
        cachingLocally := true;
        ghost var start := View();
        while protocol.HasMoreResults()
          invariant Drain(View()) == Drain(start) && attached == old(attached)
          decreases |protocol.wire|
        {
          ghost var before := View();
          MoveToNextResult();
          threw := GetResult();
          assert (View(), threw) == FetchNext(before);
          if threw {
            return true;
          }
        }
        cachingLocally := false;
        haveResultInWire := false;
      }
      return false;
    }

    /** `Results::close`, called by the statement's `close`. */
    method Close()
      modifies this`attached
      ensures !attached && View() == old(View())
    {
      attached := false;
    }

    /** The destructor. */
    method Destroy()
      modifies protocol
      ensures View() == DestroyResults(old(View()), attached)
    {
      if attached {
        Discard();
      }
    }

    /** `loadFully(true)` and `skipAllResults`. */
    method Discard()
      modifies protocol
      ensures View() == MultiResults.Discard(old(View()))
    {
      if haveResultInWire {
        if protocol.HasMoreResults() {
          while protocol.HasMoreResults()
            invariant protocol.activeStreamingResult == old(protocol.activeStreamingResult)
            decreases |protocol.wire|
          {
            protocol.wire := protocol.wire[1..];
          }
          protocol.RemoveActiveStreamingResult();
        }
      }
    }

    method GetMoreResults() returns (o: Outcome)
      requires haveResultInWire ==> protocol.wire != []
      modifies this, protocol
      ensures attached == old(attached)
      ensures (View(), o) == MultiResults.GetMoreResults(old(View()))
    {
      if haveResultInWire {
        MoveToNextResult();
        var threw := GetResult();
        if threw {
          return Threw;
        }
      }
      cmdInformation := MoveCursor(cmdInformation);
      if AtResultSet(cmdInformation) {
        if executionResults != [] {
          resultSet := Some(executionResults[0]);
          executionResults := executionResults[1..];
        }
        return Answer(resultSet.Some?);
      }
      resultSet := None;
      if UpdateCount(cmdInformation) == -1 && haveResultInWire {
        haveResultInWire := false;
        protocol.RemoveActiveStreamingResult();
      }
      return Answer(false);
    }
  }
}
