/** The transaction manager's methods, with the loops they run, each proved to be a run of the
    step machine and to leave exactly the state it promises. */
module Manager {
  import opened Base
  import opened Mvcc
  import opened Snapshot

  datatype TxnError = Conflict | Deleted | SlotMissing | InvalidState(state: TxnState) | Storage

  const EMPTY_START := World(Db(map[], map[], map[], multiset{}, 0, TXN_START_ID, Free, {0}), Spec(map[], [], map[]),
      map[])

  type StartWorld = w: World | Start(w) ghost witness EMPTY_START

  /** The states a run goes through, each following from the one before it. */
  ghost predicate GoesThrough<W, S>(next: (W, S, W) -> bool, start: W, steps: seq<S>, states: seq<W>) {
    && |states| == |steps| + 1 && states[0] == start
    && forall i {:trigger steps[i]} :: 0 <= i < |steps| ==> next(states[i], steps[i], states[i + 1])
  }

  ghost predicate ReachesBy<W(!new), S>(next: (W, S, W) -> bool, start: W, steps: seq<S>, w: W) {
    exists states :: GoesThrough(next, start, steps, states) && states[|steps|] == w
  }

  lemma OneMore<W(!new), S>(next: (W, S, W) -> bool, start: W, steps: seq<S>, w: W, step: S, w': W)
    requires ReachesBy(next, start, steps, w) && next(w, step, w')
    ensures ReachesBy(next, start, steps + [step], w')
  {
    var states: seq<W> :| GoesThrough(next, start, steps, states) && states[|steps|] == w;
    var more := states + [w'];
    forall i | 0 <= i < |steps + [step]| ensures next(more[i], (steps + [step])[i], more[i + 1]) {
      if i < |steps| { assert next(states[i], steps[i], states[i + 1]); }
    }
    assert GoesThrough(next, start, steps + [step], more);
  }

  lemma BeforeLast<W(!new), S>(next: (W, S, W) -> bool, start: W, steps: seq<S>, w: W) returns (before: W)
    requires ReachesBy(next, start, steps, w) && steps != []
    ensures ReachesBy(next, start, Base.Init(steps), before) && next(before, Last(steps), w)
  {
    var states: seq<W> :| GoesThrough(next, start, steps, states) && states[|steps|] == w;
    var n := |steps| - 1;
    before := states[n];
    assert Last(steps) == steps[n];
    forall i | 0 <= i < n ensures next(states[i], Base.Init(steps)[i], states[i + 1]) {
      assert Base.Init(steps)[i] == steps[i];
    }
    assert GoesThrough(next, start, Base.Init(steps), states[..n + 1]);
  }

  predicate Follows(w: World, step: Step, w': World) { Enabled(w.db, step) && w' == WorldNext(w, step) }

  ghost predicate Reaches(start: World, steps: seq<Step>, w: World) { ReachesBy(Follows, start, steps, w) }

  /** Going through states one by one is what a run is. */
  lemma {:induction false} ReachesIsRun(start: World, steps: seq<Step>, w: World)
    requires Reaches(start, steps, w)
    ensures Run(start, steps) == Some(w)
  {
    if steps != [] {
      var before := BeforeLast(Follows, start, steps, w);
      ReachesIsRun(start, Base.Init(steps), before);
    }
  }

  lemma NeverStuck(start: StartWorld, steps: seq<Step>, w: World, rid: RecordId)
    requires Reaches(start, steps, w)
    ensures w.db.latch.Stamps() || w.db.latch.Aborting? ==> w.db.IsActive(w.db.latch.txn)
    ensures w.db.latch.Stamping? && rid in w.db.txns[w.db.latch.txn].writeSet && rid !in w.db.latch.done ==>
            Enabled(w.db, Stamp(rid))
    ensures w.db.latch.Unstamping? && rid in w.db.latch.done ==> Enabled(w.db, Unstamp(rid))
    ensures w.db.latch.Aborting? && rid in w.db.txns[w.db.latch.txn].writeSet ==> Enabled(w.db, Restore(rid))
  {
    ReachesIsRun(start, steps, w);
    OutcomesNeverStuck(start, steps, rid);
    StartInv(start);
    RunKeepsInv(start, steps);
  }

  lemma NotAll<T>(some: set<T>, all: set<T>)
    requires some <= all && some != all
    ensures exists x :: x in all && x !in some
  {}

  /** What stamping one more slot changes. */
  function Stamped(db: Db, rid: RecordId): Db
    requires rid in db.slots && db.latch.Stamping?
  {
    db.(slots := db.slots[rid := db.slots[rid].(ts := db.lastCommitTs + 1)],
        latch := Stamping(db.latch.txn, db.latch.done + {rid}))
  }

  lemma SnapshotsBelowIds(start: StartWorld, steps: seq<Step>, w: World, t: nat)
    requires Reaches(start, steps, w) && t in w.db.txns
    ensures w.db.txns[t].readTs < TXN_START_ID
  {
    ReachesIsRun(start, steps, w);
    StartInv(start);
    RunKeepsInv(start, steps);
  }

  /** The slots once every record of `rids` carries stamp `ts`. */
  ghost predicate Restamped(was: map<RecordId, Version>, now: map<RecordId, Version>, rids: set<RecordId>, ts: nat) {
    && now.Keys == was.Keys
    && forall rid :: rid in was ==> now[rid] == if rid in rids then was[rid].(ts := ts) else was[rid]
  }

  predicate HasStamp(slots: map<RecordId, Version>, rid: RecordId, ts: nat) { rid in slots && slots[rid].ts == ts }

  class TransactionManager {
    var slots: map<RecordId, Version>
    var versions: map<RecordId, seq<Version>>
    var txns: map<nat, Txn>
    var running: multiset<nat>
    var lastCommitTs: nat
    var nextTxnId: nat
    ghost var start: StartWorld
    ghost var steps: seq<Step>
    ghost var now: World

    /** The run `steps` from `start` has come to `now`, and the fields are what `now` says. */
    ghost predicate Valid()
      reads this
    {
      && Reaches(start, steps, now)
      && slots == now.db.slots && versions == now.db.versions && txns == now.db.txns
      && running == now.db.running && lastCommitTs == now.db.lastCommitTs && nextTxnId == now.db.nextTxnId
    }

    /** Extends the run by one step. */
    ghost method Take(step: Step)
      requires Reaches(start, steps, now) && Enabled(now.db, step)
      modifies this`steps, this`now
      ensures Reaches(start, steps, now) && now.db == Next(old(now).db, step) && steps == old(steps) + [step]
    {
      OneMore(Follows, start, steps, now, step, WorldNext(now, step));
      now := WorldNext(now, step);
      steps := steps + [step];
    }

    /** A manager over a heap of committed rows, resuming earlier clocks. */
    constructor (heap: map<RecordId, Version>, clock: nat, nextId: nat)
      requires clock < TXN_START_ID && forall rid :: rid in heap ==> heap[rid].ts <= clock
      ensures Valid() && steps == [] && slots == heap && versions == map[] && txns == map[] && lastCommitTs == clock
      ensures nextTxnId == if nextId < TXN_START_ID then TXN_START_ID else nextId
    {
      slots, versions, txns, running := heap, map[], map[], multiset{};
      var next := if nextId < TXN_START_ID then TXN_START_ID else nextId;
      lastCommitTs, nextTxnId := clock, next;
      ghost var base := map rid | rid in heap && !heap[rid].deleted :: Row(heap[rid].ts, heap[rid].data);
      ghost var first := World(Db(heap, map[], map[], multiset{}, clock, next, Free, {clock}), Spec(base, [], map[]),
          map[]);
      start, steps, now := first, [], first;
      assert GoesThrough(Follows, first, [], [first]);
    }

    method Begin() returns (id: nat)
      requires Valid()
      modifies this
      ensures Valid() && start == old(start) && steps == old(steps) + [Mvcc.Begin]
      ensures id in txns && txns[id] == Txn(lastCommitTs, Running, None, map[])
    {
      id := nextTxnId;
      running := running + multiset{lastCommitTs};
      txns := txns[id := Txn(lastCommitTs, Running, None, map[])];
      nextTxnId := nextTxnId + 1;
      Take(Mvcc.Begin);
    }

    /** Walks the chain to the version `t` sees. */
    method VisibleVersion(t: nat, rid: RecordId) returns (bytes: Option<Bytes>)
      requires Valid() && t in txns && rid in slots
      ensures bytes == Visible(now.db, t, rid)
    {
      var slot := slots[rid];
      if Sees(t, txns[t].readTs, slot.ts) {
        return if slot.deleted then None else Some(slot.data);
      }
      var cur := if rid in versions then versions[rid] else [];
      while cur != []
        invariant FirstAtOrBefore(cur, txns[t].readTs) == FirstAtOrBefore(now.db.Chain(rid), txns[t].readTs)
        decreases |cur|
      {
        if cur[0].ts <= txns[t].readTs {
          return if cur[0].deleted then None else Some(cur[0].data);
        }
        cur := cur[1..];
      }
      return None;
    }

    /** Writes a new version of `rid`, or a deletion, and returns whether it pushed an undo entry. */
    method WriteVersion(t: nat, rid: RecordId, image: Option<Bytes>) returns (r: Result<bool, TxnError>)
      requires Valid() && now.db.CanWork(t)
      modifies this
      ensures Valid() && start == old(start) && steps == old(steps) + [Write(t, rid, image)]
      ensures r == Err(SlotMissing) <==> rid !in old(slots)
      ensures r == Err(Conflict) <==>
              rid in old(slots) && old(slots)[rid].ts != t && old(slots)[rid].ts > old(txns)[t].readTs
      ensures r == Err(Deleted) <==>
              rid in old(slots) && (old(slots)[rid].ts == t || old(slots)[rid].ts <= old(txns)[t].readTs)
              && old(slots)[rid].deleted
      ensures r.Err? ==> r.error.SlotMissing? || r.error.Conflict? || r.error.Deleted?
      ensures r.Ok? ==>
              slots == old(slots)[rid := Overwritten(old(slots)[rid], t, image)]
              && r.value == (old(slots)[rid].ts != t)
      ensures r.Err? ==>
              slots == old(slots) && versions == old(versions) && txns == old(txns)[t := old(txns)[t].Taint()]
    {
      SnapshotsBelowIds(start, steps, now, t);
      Take(Write(t, rid, image));
      if rid !in slots || WriteConflict(t, txns[t].readTs, slots[rid].ts) || slots[rid].deleted {
        r := Err(if rid !in slots then SlotMissing
                 else if WriteConflict(t, txns[t].readTs, slots[rid].ts) then Conflict else Deleted);
        txns := txns[t := txns[t].Taint()];
        return;
      }
      var was := slots[rid];
      slots := slots[rid := Version(t, image.None?, if image.Some? then image.value else was.data)];
      if was.ts != t {
        PushVersion(rid, was);
      }
      if rid !in txns[t].writeSet {
        txns := txns[t := txns[t].(writeSet := txns[t].writeSet[rid := was.ts != t])];
      }
      r := Ok(was.ts != t);
    }

    method PushVersion(rid: RecordId, was: Version)
      modifies this`versions
      ensures versions == old(versions)[rid := [was] + if rid in old(versions) then old(versions)[rid] else []]
    {
      var prev := if rid in versions then versions[rid] else [];
      versions := versions[rid := [was] + prev];
    }

    /** Re-stamps one slot, if it has the stamp it should have. */
    method StampSlot(rid: RecordId, from: nat, to: nat) returns (ok: bool)
      requires rid in slots
      modifies this`slots
      ensures ok <==> old(slots)[rid].ts == from
      ensures slots == if ok then old(slots)[rid := old(slots)[rid].(ts := to)] else old(slots)
    {
      if slots[rid].ts != from {
        return false;
      }
      slots := slots[rid := slots[rid].(ts := to)];
      return true;
    }

    /** Commits `t`. `broken` holds the records whose page cannot be written. Either every write
        carries the new timestamp and it is published, or every slot is as it was and `t` can only
        abort. */
    method Commit(t: nat, broken: set<RecordId>) returns (r: Result<nat, TxnError>)
      requires Valid() && t in txns && now.db.latch.Free? && lastCommitTs + 1 < TXN_START_ID
      modifies this
      ensures Valid() && now.db.latch.Free? && start == old(start) && old(steps) <= steps && versions == old(versions)
      ensures old(txns)[t].state != Running ==> r == Err(InvalidState(old(txns)[t].state))
      ensures old(txns)[t].state == Running ==>
              if old(txns)[t].writeSet.Keys !! broken then r.Ok? else r == Err(Storage)
      ensures r.Err? ==>
              slots == old(slots) && lastCommitTs == old(lastCommitTs) && running == old(running)
              && txns == old(txns)[t := old(txns)[t].Taint()]
      ensures r.Ok? ==> r.value == lastCommitTs == old(lastCommitTs) + if old(txns)[t].writeSet == map[] then 0 else 1
      ensures r.Ok? ==> Restamped(old(slots), slots, old(txns)[t].writeSet.Keys, lastCommitTs)
      ensures r.Ok? ==> txns == old(txns)[t := old(txns)[t].(state := Committed, commitTs := Some(lastCommitTs))]
      ensures r.Ok? ==> running == old(running) - multiset{old(txns)[t].readTs}
    {
      if txns[t].state != Running {
        return Err(InvalidState(txns[t].state));
      }
      if txns[t].writeSet == map[] {
        Take(CommitReadOnly(t));
        txns := txns[t := txns[t].(state := Committed, commitTs := Some(lastCommitTs))];
        running := running - multiset{txns[t].readTs};
        return Ok(lastCommitTs);
      }
      r := CommitWrites(t, broken);
    }

    method CommitWrites(t: nat, broken: set<RecordId>) returns (r: Result<nat, TxnError>)
      requires Valid() && Enabled(now.db, StartCommit(t))
      modifies this
      ensures Valid() && now.db.latch.Free? && start == old(start) && old(steps) <= steps && versions == old(versions)
      ensures if old(txns)[t].writeSet.Keys !! broken then r.Ok? else r == Err(Storage)
      ensures r.Err? ==>
              slots == old(slots) && lastCommitTs == old(lastCommitTs) && running == old(running)
              && txns == old(txns)[t := old(txns)[t].Taint()]
      ensures r.Ok? ==> r.value == lastCommitTs == old(lastCommitTs) + 1
      ensures r.Ok? ==> Restamped(old(slots), slots, old(txns)[t].writeSet.Keys, lastCommitTs)
      ensures r.Ok? ==> txns == old(txns)[t := old(txns)[t].(state := Committed, commitTs := Some(lastCommitTs))]
      ensures r.Ok? ==> running == old(running) - multiset{old(txns)[t].readTs}
    {
      Take(StartCommit(t));
      var ok, done := StampAll(t, broken);
      if ok {
        PublishAndEnd(t);
        return Ok(lastCommitTs);
      }
      UndoCommit(t, done);
      assert slots == old(slots);
      return Err(Storage);
    }

    /** Takes back a commit that stamped only `done`. */
    method UndoCommit(t: nat, done: set<RecordId>)
      requires Valid() && t in txns && now.db.latch == Stamping(t, done) && done != txns[t].writeSet.Keys
      modifies this`slots, this`txns, this`steps, this`now
      ensures Valid() && now.db.latch.Free? && old(steps) <= steps && txns == old(txns)[t := old(txns)[t].Taint()]
      ensures Restamped(old(slots), slots, done, t)
    {
      Take(StampFails);
      UnstampAll(t, done);
      Take(EndFailedCommit);
      txns := txns[t := txns[t].Taint()];
    }

    /** Publishes the timestamp every write carries and retires the transaction. */
    method PublishAndEnd(t: nat)
      requires Valid() && Enabled(now.db, Mvcc.Publish) && now.db.latch.txn == t
      modifies this
      ensures Valid() && now.db.latch.Free? && lastCommitTs == old(lastCommitTs) + 1
      ensures start == old(start) && old(steps) <= steps && slots == old(slots) && versions == old(versions)
      ensures txns == old(txns)[t := old(txns)[t].(state := Committed, commitTs := Some(lastCommitTs))]
      ensures running == old(running) - multiset{old(txns)[t].readTs}
    {
      Publish(t);
      Take(EndCommit);
      running := running - multiset{txns[t].readTs};
    }

    method Publish(t: nat)
      requires Valid() && Enabled(now.db, Mvcc.Publish) && now.db.latch.txn == t
      modifies this`lastCommitTs, this`txns, this`steps, this`now
      ensures Valid() && now.db.latch == Published(t) && lastCommitTs == old(lastCommitTs) + 1
              && steps == old(steps) + [Mvcc.Publish]
      ensures txns == old(txns)[t := old(txns)[t].(state := Committed, commitTs := Some(lastCommitTs))]
    {
      Take(Mvcc.Publish);
      lastCommitTs := lastCommitTs + 1;
      txns := txns[t := txns[t].(state := Committed, commitTs := Some(lastCommitTs))];
    }

    /** Stamps the write set slot by slot until one page write fails. */
    method StampAll(t: nat, broken: set<RecordId>) returns (ok: bool, done: set<RecordId>)
      requires Valid() && t in txns && now.db.latch == Stamping(t, {})
      modifies this`slots, this`steps, this`now
      ensures Valid() && old(steps) <= steps && now.db.latch == Stamping(t, done) && done <= txns[t].writeSet.Keys
      ensures ok <==> txns[t].writeSet.Keys !! broken
      ensures ok <==> done == txns[t].writeSet.Keys
      ensures Restamped(old(slots), slots, done, lastCommitTs + 1)
      ensures forall rid :: rid in done ==> HasStamp(old(slots), rid, t)
    {
      var rids := txns[t].writeSet.Keys;
      done := {};
      while done != rids
        invariant done <= rids && done !! broken && now.db.latch == Stamping(t, done)
        invariant Valid() && old(steps) <= steps
        invariant Restamped(old(slots), slots, done, lastCommitTs + 1)
        invariant forall rid :: rid in done ==> HasStamp(old(slots), rid, t)
        decreases rids - done
      {
        NotAll(done, rids);
        var rid :| rid in rids && rid !in done;
        if rid in broken {
          return false, done;
        }
        StampNext(t, rid);
        done := done + {rid};
      }
      ok := true;
    }

    ghost method TakeStamp(rid: RecordId)
      requires Reaches(start, steps, now) && now.db.latch.Stamping? && now.db.latch.txn in now.db.txns
      requires rid in now.db.txns[now.db.latch.txn].writeSet && rid !in now.db.latch.done
      modifies this`steps, this`now
      ensures Reaches(start, steps, now) && steps == old(steps) + [Stamp(rid)]
      ensures HasStamp(old(now).db.slots, rid, old(now).db.latch.txn) && now.db == Stamped(old(now).db, rid)
    {
      NeverStuck(start, steps, now, rid);
      Take(Stamp(rid));
    }

    /** Stamps one more slot of the committing transaction. */
    method StampNext(t: nat, rid: RecordId)
      requires Valid() && now.db.latch.Stamping? && now.db.latch.txn == t && t in txns
      requires rid in txns[t].writeSet && rid !in now.db.latch.done
      modifies this`slots, this`steps, this`now
      ensures Valid() && old(steps) <= steps && now.db.latch == Stamping(t, old(now.db.latch.done) + {rid})
      ensures HasStamp(old(slots), rid, t) && slots == old(slots)[rid := old(slots)[rid].(ts := lastCommitTs + 1)]
    {
      TakeStamp(rid);
      var _ := StampSlot(rid, t, lastCommitTs + 1);
    }

    /** Puts the slots stamped so far back to the transaction id. */
    method UnstampAll(t: nat, stamped: set<RecordId>)
      requires Valid() && now.db.latch == Unstamping(t, stamped)
      modifies this`slots, this`steps, this`now
      ensures Valid() && old(steps) <= steps && now.db.latch == Unstamping(t, {})
      ensures Restamped(old(slots), slots, stamped, t)
    {
      var left := stamped;
      while left != {}
        invariant left <= stamped && now.db.latch == Unstamping(t, left)
        invariant Valid() && old(steps) <= steps
        invariant Restamped(old(slots), slots, stamped - left, t)
        decreases left
      {
        var rid :| rid in left;
        UnstampNext(t, rid);
        left := left - {rid};
      }
    }

    method UnstampNext(t: nat, rid: RecordId)
      requires Valid() && now.db.latch.Unstamping? && now.db.latch.txn == t && rid in now.db.latch.done
      modifies this`slots, this`steps, this`now
      ensures Valid() && old(steps) <= steps && now.db.latch == Unstamping(t, old(now.db.latch.done) - {rid})
      ensures rid in old(slots) && slots == old(slots)[rid := old(slots)[rid].(ts := t)]
    {
      assert Enabled(now.db, Unstamp(rid)) by { NeverStuck(start, steps, now, rid); }
      var _ := StampSlot(rid, lastCommitTs + 1, t);
      Take(Unstamp(rid));
    }

    /** Rolls back every write of `t`, one slot at a time, forgetting each as it goes. A failed page
        write leaves the rest for a later call. */
    method Abort(t: nat, broken: set<RecordId>) returns (r: Result<(), TxnError>, done: set<RecordId>)
      requires Valid() && t in txns && now.db.latch.Free?
      modifies this
      ensures Valid() && now.db.latch.Free? && start == old(start) && old(steps) <= steps
              && lastCommitTs == old(lastCommitTs)
      ensures !old(txns)[t].Active() ==> r == Err(InvalidState(old(txns)[t].state)) && done == {}
      ensures old(txns)[t].Active() ==> if old(txns)[t].writeSet.Keys !! broken then r.Ok? else r == Err(Storage)
      ensures done <= old(txns)[t].writeSet.Keys && done !! broken
      ensures r.Ok? ==> done == old(txns)[t].writeSet.Keys && running == old(running) - multiset{old(txns)[t].readTs}
      ensures r.Ok? ==> txns == old(txns)[t := old(txns)[t].(state := Aborted, commitTs := None, writeSet := map[])]
      ensures r.Err? ==>
              txns == old(txns)[t := old(txns)[t].Taint().(writeSet := old(txns)[t].writeSet - done)]
              && running == old(running)
      ensures RolledBack(old(now).db, now.db, t, done)
    {
      if !txns[t].Active() {
        assert txns[t].writeSet - {} == txns[t].writeSet;
        return Err(InvalidState(txns[t].state)), {};
      }
      r, done := RollBack(t, broken);
    }

    method RollBack(t: nat, broken: set<RecordId>) returns (r: Result<(), TxnError>, done: set<RecordId>)
      requires Valid() && Enabled(now.db, StartAbort(t))
      modifies this
      ensures Valid() && now.db.latch.Free? && start == old(start) && old(steps) <= steps
              && lastCommitTs == old(lastCommitTs)
      ensures if old(txns)[t].writeSet.Keys !! broken then r.Ok? else r == Err(Storage)
      ensures done <= old(txns)[t].writeSet.Keys && done !! broken
      ensures r.Ok? ==> done == old(txns)[t].writeSet.Keys && running == old(running) - multiset{old(txns)[t].readTs}
      ensures r.Ok? ==> txns == old(txns)[t := old(txns)[t].(state := Aborted, commitTs := None, writeSet := map[])]
      ensures r.Err? ==>
              txns == old(txns)[t := old(txns)[t].Taint().(writeSet := old(txns)[t].writeSet - done)]
              && running == old(running)
      ensures RolledBack(old(now).db, now.db, t, done)
    {
      StartAborting(t);
      ghost var mid := now.db;
      var ok;
      ok, done := RestoreAll(t, broken);
      ghost var mid' := now.db;
      NothingLeft(mid, mid', t, done);
      ghost var x := old(txns)[t].Taint();
      SetTwice(old(txns), t, x, x.(writeSet := x.writeSet - done));
      FinishRollBack(t, ok);
      SetTwice(old(txns), t, x.(writeSet := x.writeSet - done),
          x.(writeSet := x.writeSet - done, state := Aborted, commitTs := None));
      r := if ok then Ok(()) else Err(Storage);
      RolledBackSame(old(now).db, mid, mid', now.db, t, done);
    }

    /** Ends the abort, or leaves the rest of the write set for another try. */
    method FinishRollBack(t: nat, ok: bool)
      requires Valid() && now.db.latch == Aborting(t) && t in txns && (ok ==> txns[t].writeSet == map[])
      modifies this`txns, this`running, this`steps, this`now
      ensures Valid() && now.db.latch.Free? && old(steps) <= steps
      ensures txns == if ok then old(txns)[t := old(txns)[t].(state := Aborted, commitTs := None)] else old(txns)
      ensures running == if ok then old(running) - multiset{old(txns)[t].readTs} else old(running)
    {
      if ok {
        EndAborted(t);
      } else {
        StopAborting(t);
      }
    }

    method StopAborting(t: nat)
      requires Valid() && now.db.latch == Aborting(t)
      modifies this`steps, this`now
      ensures Valid() && now.db.latch.Free? && steps == old(steps) + [AbortFails]
    {
      Take(AbortFails);
    }

    method StartAborting(t: nat)
      requires Valid() && Enabled(now.db, StartAbort(t))
      modifies this`txns, this`steps, this`now
      ensures Valid() && now.db.latch == Aborting(t) && steps == old(steps) + [StartAbort(t)]
      ensures txns == old(txns)[t := old(txns)[t].Taint()]
    {
      Take(StartAbort(t));
      txns := txns[t := txns[t].Taint()];
    }

    method EndAborted(t: nat)
      requires Valid() && now.db.latch == Aborting(t) && t in txns && txns[t].writeSet == map[]
      modifies this`txns, this`running, this`steps, this`now
      ensures Valid() && now.db.latch.Free? && steps == old(steps) + [EndAbort]
      ensures txns == old(txns)[t := old(txns)[t].(state := Aborted, commitTs := None)]
      ensures running == old(running) - multiset{old(txns)[t].readTs}
    {
      Take(EndAbort);
      txns := txns[t := txns[t].(state := Aborted, commitTs := None)];
      running := running - multiset{txns[t].readTs};
    }

    /** Restores the write set slot by slot until one page write fails. */
    method RestoreAll(t: nat, broken: set<RecordId>) returns (ok: bool, done: set<RecordId>)
      requires Valid() && t in txns && now.db.latch == Aborting(t)
      modifies this`slots, this`versions, this`txns, this`steps, this`now
      ensures Valid() && old(steps) <= steps && now.db.latch == Aborting(t) && done <= old(txns)[t].writeSet.Keys
      ensures ok <==> old(txns)[t].writeSet.Keys !! broken
      ensures ok ==> done == old(txns)[t].writeSet.Keys
      ensures done !! broken
      ensures RolledBack(old(now).db, now.db, t, done) && Forgotten(old(now).db, now.db, t, done)
    {
      var all := txns[t].writeSet.Keys;
      done := {};
      ForgottenNone(now.db, t);
      while done != all
        invariant done <= all && done !! broken
        invariant Valid() && old(steps) <= steps && now.db.latch == Aborting(t)
        invariant RolledBack(old(now).db, now.db, t, done) && Forgotten(old(now).db, now.db, t, done)
        decreases all - done
      {
        NotAll(done, all);
        var rid :| rid in all && rid !in done;
        if rid in broken {
          return false, done;
        }
        ghost var mid := now.db;
        RestoreNext(t, rid);
        RolledBackMore(old(now).db, mid, now.db, t, done, rid);
        ForgottenMore(old(now).db, mid, now.db, t, done, rid);
        done := done + {rid};
      }
      return true, done;
    }

    ghost method TakeRestore(t: nat, rid: RecordId)
      requires Reaches(start, steps, now) && now.db.latch == Aborting(t) && t in now.db.txns
               && rid in now.db.txns[t].writeSet
      modifies this`steps, this`now
      ensures Reaches(start, steps, now) && steps == old(steps) + [Restore(rid)]
      ensures rid in old(now).db.slots && (old(now).db.txns[t].writeSet[rid] ==> old(now).db.Chain(rid) != [])
      ensures now.db == DoRestore(old(now).db, t, rid)
      ensures RolledBack(old(now).db, now.db, t, {rid}) && Forgotten(old(now).db, now.db, t, {rid})
    {
      NeverStuck(start, steps, now, rid);
      RolledBackOne(now.db, t, rid);
      Take(Restore(rid));
    }

    /** Gives one slot back the head of its chain, or makes an inserted row a deletion at 0. */
    method RestoreNext(t: nat, rid: RecordId)
      requires Valid() && now.db.latch == Aborting(t) && t in txns && rid in txns[t].writeSet
      modifies this`slots, this`versions, this`txns, this`steps, this`now
      ensures Valid() && steps == old(steps) + [Restore(rid)] && now.db.latch == Aborting(t)
      ensures RolledBack(old(now).db, now.db, t, {rid}) && Forgotten(old(now).db, now.db, t, {rid})
    {
      TakeRestore(t, rid);
      if txns[t].writeSet[rid] {
        var chain := versions[rid];
        slots := slots[rid := chain[0]];
        versions := if |chain| > 1 then versions[rid := chain[1..]] else versions - {rid};
      } else {
        slots := slots[rid := Version(0, true, slots[rid].data)];
      }
      txns := txns[t := txns[t].(writeSet := txns[t].writeSet - {rid})];
    }

    /** One garbage collection pass: every chain keeps what a snapshot at or after the watermark
        can still read, and nothing more. */
    method GarbageCollect() returns (watermark: nat)
      requires Valid()
      modifies this`versions, this`steps, this`now
      ensures Valid() && old(steps) <= steps && watermark == Watermark(old(now).db)
      ensures Collected(old(now).db, now.db, watermark, old(versions).Keys)
    {
      watermark := if running == multiset{} then lastCommitTs else MinOf(running);
      Take(StartGc);
      var all, done := versions.Keys, {};
      while done != all
        invariant done <= all && Valid() && old(steps) <= steps && watermark in now.db.marks
        invariant Collected(old(now).db, now.db, watermark, done)
        decreases all - done
      {
        NotAll(done, all);
        var rid :| rid in all && rid !in done;
        ghost var mid := now.db;
        CollectSlot(watermark, rid);
        CollectedMore(old(now).db, mid, now.db, watermark, done, rid);
        done := done + {rid};
      }
    }

    method CollectSlot(watermark: nat, rid: RecordId)
      requires Valid() && watermark in now.db.marks
      modifies this`versions, this`steps, this`now
      ensures Valid() && old(steps) <= steps && watermark in now.db.marks
      ensures rid in old(versions) ==> rid in slots && now.db == DoGcSlot(old(now).db, watermark, rid)
      ensures rid !in old(versions) ==> now == old(now)
    {
      if rid !in versions {
        return;
      }
      ChainsHaveSlots(start, steps, now, rid);
      Take(GcSlot(watermark, rid));
      if !IsTxnId(slots[rid].ts) && slots[rid].ts <= watermark {
        versions := versions - {rid};
      } else {
        var kept := CutChain(versions[rid], watermark);
        versions := versions[rid := kept];
      }
    }
  }

  /** Walks to the first entry at or below the watermark and unlinks everything after it. */
  method CutChain(chain: seq<Version>, watermark: nat) returns (kept: seq<Version>)
    ensures kept == Cut(chain, watermark)
  {
    var i := 0;
    while i < |chain| && chain[i].ts > watermark
      invariant 0 <= i <= |chain| && forall k :: 0 <= k < i ==> chain[k].ts > watermark
    {
      i := i + 1;
    }
    kept := if i < |chain| then chain[..i + 1] else chain;
    CutAt(chain, i, watermark);
  }

  lemma {:induction false} CutAt(chain: seq<Version>, i: nat, m: nat)
    requires i <= |chain| && (forall k :: 0 <= k < i ==> chain[k].ts > m) && (i < |chain| ==> chain[i].ts <= m)
    ensures Cut(chain, m) == if i < |chain| then chain[..i + 1] else chain
  {
    if i > 0 {
      CutAt(chain[1..], i - 1, m);
      assert chain == [chain[0]] + chain[1..];
    } else if chain != [] {
      assert chain[..1] == [chain[0]];
    }
  }

  lemma RolledBackMore(was: Db, mid: Db, now: Db, t: nat, rids: set<RecordId>, rid: RecordId)
    requires RolledBack(was, mid, t, rids) && Forgotten(was, mid, t, rids) && RolledBack(mid, now, t, {rid})
             && rid !in rids
    ensures RolledBack(was, now, t, rids + {rid})
  {}

  lemma ForgottenNone(db: Db, t: nat)
    requires t in db.txns
    ensures Forgotten(db, db, t, {})
  {
    assert db.txns[t].writeSet - {} == db.txns[t].writeSet;
  }

  lemma ForgottenMore(was: Db, mid: Db, now: Db, t: nat, rids: set<RecordId>, rid: RecordId)
    requires Forgotten(was, mid, t, rids) && Forgotten(mid, now, t, {rid})
    ensures Forgotten(was, now, t, rids + {rid})
  {
    assert was.txns[t].writeSet - rids - {rid} == was.txns[t].writeSet - (rids + {rid});
  }

  lemma SetTwice<K, V>(m: map<K, V>, k: K, a: V, b: V)
    ensures m[k := a][k := b] == m[k := b]
  {}

  lemma NothingLeft(was: Db, now: Db, t: nat, rids: set<RecordId>)
    requires Forgotten(was, now, t, rids)
    ensures rids == was.txns[t].writeSet.Keys ==> now.txns[t].writeSet == map[]
  {}

  lemma RolledBackSame(was: Db, was': Db, now: Db, now': Db, t: nat, rids: set<RecordId>)
    requires RolledBack(was', now, t, rids) && was.slots == was'.slots && was.versions == was'.versions
    requires t in was.txns && was.txns[t].writeSet == was'.txns[t].writeSet && now.slots == now'.slots
             && now.versions == now'.versions
    ensures RolledBack(was, now', t, rids)
  {}

  lemma RolledBackOne(db: Db, t: nat, rid: RecordId)
    requires Enabled(db, Restore(rid)) && db.latch == Aborting(t)
    ensures RolledBack(db, Next(db, Restore(rid)), t, {rid})
  {}

  lemma CollectedMore(was: Db, mid: Db, now: Db, watermark: nat, rids: set<RecordId>, rid: RecordId)
    requires Collected(was, mid, watermark, rids) && rid !in rids
    requires rid in mid.versions ==> rid in mid.slots && now == DoGcSlot(mid, watermark, rid)
    requires rid !in mid.versions ==> now == mid
    ensures Collected(was, now, watermark, rids + {rid})
  {}

  lemma ChainsHaveSlots(start: StartWorld, steps: seq<Step>, w: World, rid: RecordId)
    requires Reaches(start, steps, w) && rid in w.db.versions
    ensures rid in w.db.slots && w.db.versions[rid] != []
  {
    ReachesIsRun(start, steps, w);
    StartInv(start);
    RunKeepsInv(start, steps);
    assert RecordOk(w, rid);
  }

  /** `rids` are back to what they were before `t` wrote them, and nothing else has moved. */
  ghost predicate RolledBack(was: Db, now: Db, t: nat, rids: set<RecordId>) {
    && t in was.txns && now.slots.Keys == was.slots.Keys
    && (forall rid :: rid in was.slots && rid !in rids ==>
        now.slots[rid] == was.slots[rid] && now.Chain(rid) == was.Chain(rid))
    && forall rid :: rid in rids ==>
         && rid in was.slots && rid in was.txns[t].writeSet && was.slots[rid].ts == t
         && if was.txns[t].writeSet[rid] then
              was.Chain(rid) != [] && now.slots[rid] == was.Chain(rid)[0] && now.Chain(rid) == was.Chain(rid)[1..]
            else now.slots[rid] == Version(0, true, was.slots[rid].data) && now.Chain(rid) == was.Chain(rid)
  }

  /** The write set of `t` has lost `rids`, and no other transaction has changed. */
  ghost predicate Forgotten(was: Db, now: Db, t: nat, rids: set<RecordId>) {
    t in was.txns && now.txns == was.txns[t := was.txns[t].(writeSet := was.txns[t].writeSet - rids)]
  }

  /** The chains of `rids` are cut down to the watermark, and nothing else has moved. */
  ghost predicate Collected(was: Db, now: Db, watermark: nat, rids: set<RecordId>) {
    && now.slots == was.slots && now.txns == was.txns && now.lastCommitTs == was.lastCommitTs
    && now.running == was.running
    && forall rid :: now.Chain(rid) ==
         if rid !in rids then was.Chain(rid)
         else if rid in was.slots && !IsTxnId(was.slots[rid].ts) && was.slots[rid].ts <= watermark then []
         else Cut(was.Chain(rid), watermark)
  }
}
