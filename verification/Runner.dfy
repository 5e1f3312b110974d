/**
 The container's main loop: seed `handled` from the acks, then poll inbound, run a turn for each
 row not yet handled, and mark it handled only once its batch and ack are committed.

 Methods take the outcomes the code does not determine (a turn's result, which statement of a
 transaction fails) as arguments, and say which steps of the exchange they perform.
 */
module Runner {
  import opened Wrappers
  import opened Session
  import opened Turn
  import opened Exchange
  import opened ExchangeInvariant
  import opened ExchangeTheorems

  class Container {
    const db: SessionDb
    var running: bool
    var handled: set<nat>
    var pending: seq<InRow>
    ghost var commits: seq<Commit>

    function View(): RunnerState
      reads this
    {
      if running then Running(handled, pending) else Stopped
    }

    /** The whole exchange, given what the host side is doing. */
    ghost function World(host: HostState, returned: seq<OutRow>): State
      reads this, db
    {
      State(db.View(), View(), host, commits, returned)
    }

    constructor (db: SessionDb)
      ensures this.db == db && View() == Stopped && commits == []
    {
      this.db := db;
      running, handled, pending, commits := false, {}, [], [];
    }

    /** A new container life; `seeded` is false when reading the processed set failed. */
    method Boot(seeded: bool, ghost host: HostState, ghost returned: seq<OutRow>)
      modifies this
      ensures World(host, returned) == Step(old(World(host, returned)), Event.Boot(seeded))
    {
      if !running {
        running, handled, pending := true, {}, [];
        if seeded {
          handled := handled + db.acks;
          assert handled == db.acks;
        }
      }
    }

    method Die(ghost host: HostState, ghost returned: seq<OutRow>)
      modifies this
      ensures World(host, returned) == Step(old(World(host, returned)), Event.Die)
    {
      running := false;
    }

    method PollInbound(ghost host: HostState, ghost returned: seq<OutRow>)
      modifies this
      ensures World(host, returned) == Step(old(World(host, returned)), Event.PollInbound)
    {
      if running && pending == [] {
        pending := db.inbox;
      }
    }

    /** One iteration of the loop over the inbound snapshot. */
    method Take(result: TurnResult, fault: Option<nat>, ghost host: HostState, ghost returned: seq<OutRow>)
      returns (committed: bool)
      modifies this, db
      ensures World(host, returned) == Step(old(World(host, returned)), Event.Take(result, committed))
      ensures old(running) && old(pending) != [] ==>
                && running && pending == old(pending)[1..] && db.inbox == old(db.inbox) && old(handled) <= handled
                && (committed ==> old(pending)[0].seqNo in handled)
      ensures fault.None? ==> committed
      ensures fault == Some(0) ==> !committed
      ensures var answers := old(running) && old(pending) != [] && old(pending)[0].seqNo !in old(handled)
                             && old(pending)[0].message.sender != "schedule-meta" && committed;
              && (answers ==>
                    var q, n := old(pending)[0].seqNo, |old(db.outbox)|;
                    && db.acks == old(db.acks) + {q} && handled == old(handled) + {q}
                    && |db.outbox| == n + |BatchOf(result)| && old(db.outbox) <= db.outbox
                    && forall i | 0 <= i < |BatchOf(result)| :: db.outbox[n + i].draft == BatchOf(result)[i] && db.outbox[n + i].inSeq == Some(q))
              && (!answers ==> db.View() == old(db.View()))
    {
      committed := fault.None?;
      if !running || pending == [] {
        return;
      }
      var row := pending[0];
      pending := pending[1..];
      if row.seqNo in handled {
        return;
      }
      if row.IsMeta() {
        handled := handled + {row.seqNo};
        return;
      }
      var rows := BuildBatch(result);
      ghost var before := db.outbox;
      var emitted := db.EmitBatch(rows, row.seqNo, fault);
      committed := emitted.Ok?;
      if committed {
        handled := handled + {row.seqNo};
        commits := commits + [Commit(row.seqNo, db.outbox[|before|..])];
      }
    }

    /** One tick of the main loop: read inbound (an unreadable database reads as empty) and walk the snapshot. */
    method Tick(readable: bool, results: seq<TurnResult>, faults: seq<Option<nat>>, ghost host: HostState, ghost returned: seq<OutRow>)
      returns (ghost es: seq<Event>)
      requires running && pending == []
      requires |results| == |faults| == |db.inbox|
      modifies this, db
      ensures World(host, returned) == Run(old(World(host, returned)), es) && Seeded(es)
      ensures running && pending == [] && db.inbox == old(db.inbox)
      ensures readable && (forall i | 0 <= i < |faults| :: faults[i].None?) ==>
                forall i | 0 <= i < |db.inbox| :: db.inbox[i].seqNo in handled
    {
      es := [];
      if !readable {
        return;
      }
      ghost var s0 := World(host, returned);
      PollInbound(host, returned);
      hide Step, Run;
      es := [Event.PollInbound];
      RunSplit(s0, [], Event.PollInbound);
      assert [] + [Event.PollInbound] == es;
      var inbound := pending;
      var i := 0;
      while i < |inbound|
        invariant 0 <= i <= |inbound| && inbound == old(db.inbox) == db.inbox
        invariant running && pending == inbound[i..]
        invariant World(host, returned) == Run(s0, es) && Seeded(es)
        invariant (forall k | 0 <= k < |faults| :: faults[k].None?) ==> forall k | 0 <= k < i :: inbound[k].seqNo in handled
      {
        assert pending[0] == inbound[i] && pending[1..] == inbound[i + 1..];
        var committed := Take(results[i], faults[i], host, returned);
        RunSplit(s0, es, Event.Take(results[i], committed));
        es := es + [Event.Take(results[i], committed)];
        i := i + 1;
      }
    }

    /** One step of anything on the container's side of the exchange, or another writer of inbound.db. */
    method Act(e: Event, ghost host: HostState, ghost returned: seq<OutRow>)
      requires e.Post? || e.PutMeta? || e.Boot? || e.PollInbound? || e.Take? || e.Die?
      modifies this, db
      ensures World(host, returned) == Step(old(World(host, returned)), e)
    {
      match e
      case Post(m, key) => var _ := db.EnqueueInboundKeyed(m, key);
      case PutMeta(k, m) => var _ := db.UpsertInboundMeta(k, m);
      case Boot(seeded) => Boot(seeded, host, returned);
      case PollInbound => PollInbound(host, returned);
      case Take(result, committed) =>
        var _ := Take(result, if committed then None else Some(0), host, returned);
      case Die => Die(host, returned);
    }
  }
}
