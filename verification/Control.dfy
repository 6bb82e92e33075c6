/** The client's handling of one control message at a time, over the shared table of recent request ids. */
module Control {
  import opened Text
  import opened Protocol
  import opened ControlModel

  /** The command a received server message makes the client handle: only a shutdown does. */
  function Dispatch(m: ServerMsg): Option<string> {
    match m
    case Control(Shutdown, id) => Some(id)
    case _ => None
  }

  class Handler {
    var recent: Recent
    /** Reports the connection was asked to write, in order. */
    var written: seq<(string, Report)>
    /** Command goroutines started, by request id. */
    var started: seq<string>

    constructor ()
      ensures recent == Init(0).recent && written == [] && started == []
    {
      recent := map[];
      written := [];
      started := [];
    }

    method LoadOrStore(id: string, now: int) returns (loaded: bool)
      modifies this`recent
      ensures loaded <==> id in old(recent)
      ensures recent == if loaded then old(recent) else old(recent)[id := now]
    {
      loaded := id in recent;
      if !loaded { recent := recent[id := now]; }
    }

    /** One message: dedupe, then acknowledge, then start the command. */
    method HandleControlMsg(id: string, now: int) returns (prune: bool)
      modifies this
      ensures recent == Remember(old(recent), id, now)
      ensures IsDuplicate(old(recent), id) ==>
                started == old(started) && written == old(written) + [(id, Duplicate)] && !prune
      ensures !IsDuplicate(old(recent), id) ==>
                started == old(started) + [id] && written == old(written) + [(id, Accepted)] && (prune <==> id != "")
    {
      prune := false;
      if id != "" {
        var loaded := LoadOrStore(id, now);
        if loaded {
          written := written + [(id, Duplicate)];
          return;
        }
        prune := true;
      }
      written := written + [(id, Accepted)];
      started := started + [id];
    }

    /** The command goroutine after the command returned. */
    method Conclude(id: string, ok: bool)
      modifies this`written
      ensures written == old(written) + [(id, Outcome(ok))]
    {
      if !ok {
        written := written + [(id, Failed)];
        return;
      }
      written := written + [(id, Executed)];
    }

    /** A prune's look at one entry. */
    method Look(cutoff: int, id: string) returns (expired: bool)
      ensures expired <==> IsOld(recent, cutoff, id)
    {
      expired := id in recent && recent[id] < cutoff;
    }

    /** Its delete, whatever the entry has become meanwhile. */
    method Forget(id: string)
      modifies this`recent
      ensures recent == old(recent) - {id}
    {
      recent := recent - {id};
    }

    /** A whole prune with nothing in between keeps exactly the ids received within the last ten minutes. */
    method Prune(now: int)
      modifies this`recent
      ensures recent == map id | id in old(recent) && now - TEN_MINUTES <= old(recent)[id] :: old(recent)[id]
    {
      var cutoff := now - TEN_MINUTES;
      var todo := recent.Keys;
      while todo != {}
        invariant todo <= recent.Keys <= old(recent).Keys
        invariant forall id :: id in recent ==> recent[id] == old(recent)[id]
        invariant forall id :: id in old(recent) && id !in todo ==> (id in recent <==> cutoff <= old(recent)[id])
        decreases todo
      {
        var id :| id in todo;
        var expired := Look(cutoff, id);
        if expired { Forget(id); }
        todo := todo - {id};
      }
    }

    /** ResetShutdownDedupe */
    method Reset()
      modifies this`recent
      ensures recent == map[]
    {
      recent := map[];
    }
  }
}
