/** Nothing gets stuck: from every state of every run the database can open again, however many crashes came
    before, and a running one can make a durable point. */
module RecoveryProgress {
  import opened Base
  import opened WalLog
  import opened Recovery
  import M = Mvcc
  import W = WalMachine

  // ---------------------------------------------------------------- runs, step by step

  lemma {:induction false} RunFirst(s: Sys, step: Step, rest: seq<Step>)
    requires Enabled(s, step) && Run(Next(s, step), rest).Some?
    ensures Run(s, [step] + rest) == Run(Next(s, step), rest)
  {
    if rest == [] {
      assert [step] + rest == [step] && Base.Init([step]) == [] && Last([step]) == step;
    } else {
      assert Base.Init([step] + rest) == [step] + Base.Init(rest) && Last([step] + rest) == Last(rest);
      RunFirst(s, step, Base.Init(rest));
    }
  }

  lemma {:induction false} RunConcat(s: Sys, a: seq<Step>, b: seq<Step>)
    requires Run(s, a).Some? && Run(Run(s, a).value, b).Some?
    ensures Run(s, a + b) == Run(Run(s, a).value, b)
  {
    if b == [] {
      assert a + b == a;
    } else {
      assert Base.Init(a + b) == a + Base.Init(b) && Last(a + b) == Last(b);
      RunConcat(s, a, Base.Init(b));
    }
  }

  predicate NoCrash(steps: seq<Step>) { forall i :: 0 <= i < |steps| ==> !steps[i].Crash? }

  /** `more` leads from `s` to `s'` without a crash. */
  ghost predicate Leads(s: Sys, more: seq<Step>, s': Sys) { NoCrash(more) && Run(s, more) == Some(s') }

  lemma LeadsFirst(s: Sys, step: Step, rest: seq<Step>, s': Sys)
    requires Enabled(s, step) && !step.Crash? && Leads(Next(s, step), rest, s')
    ensures Leads(s, [step] + rest, s')
  {
    RunFirst(s, step, rest);
  }

  lemma LeadsOn(s: Sys, a: seq<Step>, s1: Sys, b: seq<Step>, s2: Sys)
    requires Leads(s, a, s1) && Leads(s1, b, s2)
    ensures Leads(s, a + b, s2)
  {
    RunConcat(s, a, b);
  }

  lemma KeepsInv(s: Sys, step: Step)
    requires Inv(s) && Enabled(s, step)
    ensures Inv(Next(s, step))
  {
    StepWalInv(s, step);
    StepSysOk(s, step);
  }

  // ---------------------------------------------------------------- the checkpoint of an open

  /** A checkpoint still has to copy only pages that are in the log. */
  predicate StageOk<P>(w: W.Wal<P>) { w.phase.Synced? && w.phase.next.Copy? ==> w.phase.next.left <= w.pages.Keys }

  lemma StepStage<P>(w: W.Wal<P>, step: W.Step<P>)
    requires W.Enabled(w, step) && StageOk(w)
    ensures StageOk(W.Next(w, step))
  {}

  lemma {:induction false} RunStage(data: Pages, rows: Rows, steps: seq<Step>)
    requires Run(Start(data, rows), steps).Some?
    ensures StageOk(Run(Start(data, rows), steps).value.wal.wal)
  {
    if steps != [] {
      var before := Run(Start(data, rows), Base.Init(steps)).value;
      RunStage(data, rows, Base.Init(steps));
      TakesWalStep(before, Last(steps));
      if WalStep(before, Last(steps)).Some? { StepStage(before.wal.wal, WalStep(before, Last(steps)).value); }
    }
  }

  /** How many steps a checkpoint has before it. */
  function Rank<P>(w: W.Wal<P>): nat {
    if w.phase.Idle? then 0
    else match w.phase.next
      case SyncDir => 1
      case Rename => 2
      case SyncAside => 3
      case Aside => 4
      case Copy(left) => 5 + |left|
  }

  ghost function NextStage<P(!new)>(w: W.Wal<P>): W.Step<P>
    requires w.phase.Synced?
  {
    match w.phase.next
    case SyncDir => W.SyncDirectory(true)
    case Rename => W.RenameLog
    case SyncAside => W.SyncAsideFile(true)
    case Aside => W.WriteAside
    case Copy(left) => if left == {} then W.SyncData(true) else var id :| id in left; W.CopyPage(id)
  }

  lemma StageNext<P(!new)>(w: W.Wal<P>)
    requires w.phase.Synced? && !w.broken && StageOk(w)
    ensures var step := NextStage(w);
            && W.Enabled(w, step) && !W.Next(w, step).broken && StageOk(W.Next(w, step))
            && Rank(W.Next(w, step)) < Rank(w)
            && !step.LogTxn? && !step.LogPage? && !step.DurablePoint? && !step.Crash?
  {
    if w.phase.next.Copy? { CopyNext(w, w.phase.next.left); } else { LaterNext(w); }
  }

  lemma CopyNext<P(!new)>(w: W.Wal<P>, left: set<nat>)
    requires W.At(w, W.Copy(left)) && left <= w.pages.Keys
    ensures var step := NextStage(w);
            && W.Enabled(w, step) && !W.Next(w, step).broken && StageOk(W.Next(w, step))
            && Rank(W.Next(w, step)) < Rank(w) && (step.SyncData? || step.CopyPage?)
  {
    if left != {} { OneLess(left, NextStage(w).copied); }
  }

  lemma LaterNext<P(!new)>(w: W.Wal<P>)
    requires w.phase.Synced? && !w.broken && !w.phase.next.Copy?
    ensures var step := NextStage(w);
            && W.Enabled(w, step) && !W.Next(w, step).broken && StageOk(W.Next(w, step))
            && Rank(W.Next(w, step)) < Rank(w)
            && !step.LogTxn? && !step.LogPage? && !step.DurablePoint? && !step.Crash?
  {}

  lemma CheckpointStep(s: Sys)
    requires Inv(s) && s.wal.wal.phase.Synced? && !s.wal.wal.broken && StageOk(s.wal.wal)
    ensures var step := Wal(NextStage(s.wal.wal));
            && Enabled(s, step)
            && var s1 := Next(s, step);
               && Inv(s1) && s1 == s.(wal := s1.wal) && s1.wal.all == s.wal.all
               && !s1.wal.wal.broken && StageOk(s1.wal.wal) && Rank(s1.wal.wal) < Rank(s.wal.wal)
  {
    StageNext(s.wal.wal);
    KeepsInv(s, Wal(NextStage(s.wal.wal)));
  }

  lemma {:induction false} FinishCheckpoint(s: Sys) returns (more: seq<Step>, s': Sys)
    requires Inv(s) && !s.wal.wal.broken && StageOk(s.wal.wal)
    ensures Leads(s, more, s') && Inv(s') && s' == s.(wal := s'.wal)
    ensures W.CanLog(s'.wal.wal)
    decreases Rank(s.wal.wal)
  {
    if s.wal.wal.phase.Idle? {
      return [], s;
    }
    CheckpointStep(s);
    var step := Wal(NextStage(s.wal.wal));
    more, s' := FinishCheckpoint(Next(s, step));
    LeadsFirst(s, step, more, s');
    more := [step] + more;
  }

  // ---------------------------------------------------------------- the rollback

  function StampedSlots(heap: Heap, unfinished: Undos): set<RecordId> {
    set rid | rid in heap && heap[rid].ts in unfinished
  }

  /** A slot rolled back is stamped by no unfinished transaction. */
  lemma RolledBackOnce(s: Sys, rid: RecordId)
    requires s.mode.Rolling? && RollingOk(s) && Enabled(s, RollBack(rid))
    ensures var m, s' := s.mode, Next(s, RollBack(rid));
            StampedSlots(s'.mode.heap, m.unfinished) == StampedSlots(m.heap, m.unfinished) - {rid}
  {
    var m := s.mode;
    assert RecoversTo(Find(m.heap, rid), rid, m.unfinished, s.clocks.last, Find(s.promised[m.point], rid));
  }

  lemma RollBackOne(s: Sys, rid: RecordId)
    requires Inv(s) && Enabled(s, RollBack(rid))
    ensures var s1 := Next(s, RollBack(rid));
            && Inv(s1) && s1.mode.Rolling? && s1.wal == s.wal
            && |StampedSlots(s1.mode.heap, s1.mode.unfinished)| < |StampedSlots(s.mode.heap, s.mode.unfinished)|
  {
    KeepsInv(s, RollBack(rid));
    RolledBackOnce(s, rid);
    OneLess(StampedSlots(s.mode.heap, s.mode.unfinished), rid);
  }

  lemma OneLess<T>(s: set<T>, x: T)
    requires x in s
    ensures |s - {x}| < |s|
  {}

  lemma {:induction false} RollBackAll(s: Sys) returns (more: seq<Step>, s': Sys)
    requires Inv(s) && s.mode.Rolling?
    ensures Leads(s, more, s') && Inv(s') && s'.mode.Rolling? && s'.wal == s.wal
    ensures !Stamped(s'.mode.heap, s'.mode.unfinished)
    decreases |StampedSlots(s.mode.heap, s.mode.unfinished)|
  {
    if !Stamped(s.mode.heap, s.mode.unfinished) {
      return [], s;
    }
    var rid :| rid in s.mode.heap && s.mode.heap[rid].ts in s.mode.unfinished;
    RollBackOne(s, rid);
    more, s' := RollBackAll(Next(s, RollBack(rid)));
    LeadsFirst(s, RollBack(rid), more, s');
    more := [RollBack(rid)] + more;
  }

  // ---------------------------------------------------------------- the ends of the rolled back transactions

  lemma EndForgets(all: seq<Record<Image>>, t: nat)
    ensures Unfinished(all + [Txn(End(t))]) == Unfinished(all) - {t}
  {
    assert Base.Init(all + [Txn(End(t))]) == all && Last(all + [Txn(End(t))]) == Txn(End(t));
  }

  lemma {:induction false} LogEnds(s: Sys) returns (more: seq<Step>, s': Sys)
    requires s.mode.Rolling? && s.wal.wal.phase.Idle? && !Stamped(s.mode.heap, s.mode.unfinished)
    ensures Leads(s, more, s') && s' == s.(wal := s'.wal) && s'.Undos() == map[]
    decreases |s.Undos()|
  {
    if s.Undos() == map[] {
      return [], s;
    }
    var t :| t in s.Undos();
    var s1 := Next(s, LogEnd(t));
    EndForgets(s.wal.all, t);
    assert s1.Undos() == s.Undos() - {t};
    assert |s1.Undos()| < |s.Undos()| by { assert s1.Undos().Keys == s.Undos().Keys - {t}; }
    more, s' := LogEnds(s1);
    LeadsFirst(s, LogEnd(t), more, s');
    more := [LogEnd(t)] + more;
  }

  // ---------------------------------------------------------------- opening

  lemma FinishRecovery(s: Sys) returns (more: seq<Step>, s': Sys)
    requires Inv(s) && s.mode.Rolling? && !s.wal.wal.broken && StageOk(s.wal.wal)
    ensures Leads(s, more, s') && Enabled(s', Open)
  {
    var a, s1 := FinishCheckpoint(s);
    var b, s2 := RollBackAll(s1);
    var c;
    c, s' := LogEnds(s2);
    LeadsOn(s, a, s1, b, s2);
    LeadsOn(s, a + b, s2, c, s');
    more := a + b + c;
  }

  /** A reopened database whose log works can always finish its checkpoint and its rollback, and open. */
  lemma RollbackFinishes(data: Pages, rows: Rows, steps: seq<Step>) returns (more: seq<Step>)
    requires Recovers(data, map[], rows) && Run(Start(data, rows), steps).Some?
    requires var s := Run(Start(data, rows), steps).value; s.mode.Rolling? && !s.wal.wal.broken
    ensures NoCrash(more) && Run(Start(data, rows), steps + more).Some?
    ensures Enabled(Run(Start(data, rows), steps + more).value, Open)
  {
    var start := Start(data, rows);
    RunStage(data, rows, steps);
    RunKeepsInv(data, rows, steps);
    var s';
    more, s' := FinishRecovery(Run(start, steps).value);
    RunConcat(start, steps, more);
  }

  /** What a crash that loses nothing leaves: a log that works, and a rollback to do. */
  lemma CrashReopens(s: Sys)
    requires Inv(s) && StageOk(s.wal.wal)
    ensures var crash := Crash(false, |s.wal.wal.log|, map[]);
            && Enabled(s, crash)
            && var s1 := Next(s, crash);
               Inv(s1) && StageOk(s1.wal.wal) && s1.mode.Rolling? && !s1.wal.wal.broken
  {
    CrashEnabled(s);
    KeepsInv(s, Crash(false, |s.wal.wal.log|, map[]));
    AfterCrash(s, false, |s.wal.wal.log|, map[]);
  }

  lemma CrashEnabled(s: Sys)
    requires W.Inv(s.wal)
    ensures Enabled(s, Crash(false, |s.wal.wal.log|, map[]))
  {}

  lemma AfterCrash(s: Sys, toOld: bool, kept: nat, garbage: Pages)
    requires Enabled(s, Crash(toOld, kept, garbage)) && StageOk(s.wal.wal)
    ensures var s1 := Next(s, Crash(toOld, kept, garbage));
            StageOk(s1.wal.wal) && s1.mode.Rolling? && !s1.wal.wal.broken
  {
    StepStage(s.wal.wal, W.Crash(toOld, kept, garbage));
  }

  lemma Reopen(s: Sys) returns (more: seq<Step>, s': Sys)
    requires Inv(s) && StageOk(s.wal.wal)
    ensures Run(s, more) == Some(s') && Enabled(s', Open)
  {
    var crash := Crash(false, |s.wal.wal.log|, map[]);
    CrashReopens(s);
    more, s' := FinishRecovery(Next(s, crash));
    RunFirst(s, crash, more);
    more := [crash] + more;
  }

  /** And one whose log is broken, or that is running, gets there by way of a crash. */
  lemma CanAlwaysReopen(data: Pages, rows: Rows, steps: seq<Step>) returns (more: seq<Step>)
    requires Recovers(data, map[], rows) && Run(Start(data, rows), steps).Some?
    ensures Run(Start(data, rows), steps + more).Some?
    ensures Enabled(Run(Start(data, rows), steps + more).value, Open)
  {
    var start := Start(data, rows);
    RunStage(data, rows, steps);
    RunKeepsInv(data, rows, steps);
    var s';
    more, s' := Reopen(Run(start, steps).value);
    RunConcat(start, steps, more);
  }

  // ---------------------------------------------------------------- making a durable point

  lemma {:induction false} FlushPages(s: Sys) returns (more: seq<Step>, s': Sys)
    requires s.mode.Running? && s.mode.todo.Some? && s.mode.todo.value <= s.dirty && W.CanLog(s.wal.wal)
    ensures Leads(s, more, s') && s'.mode == s.mode.(todo := Some({})) && W.CanLog(s'.wal.wal)
    ensures s.mode.todo == Some({}) ==> s' == s
    decreases if s.mode.Running? && s.mode.todo.Some? then |s.mode.todo.value| else 0
  {
    var todo := s.mode.todo.value;
    if todo == {} {
      return [], s;
    }
    var p :| p in todo;
    OneLess(todo, p);
    more, s' := FlushPages(Next(s, LogPage(p)));
    LeadsFirst(s, LogPage(p), more, s');
    more := [LogPage(p)] + more;
  }

  /** Commits are held off, the pages and the clocks that are not in the log yet go there, and then the durable point
      can be made, unless nothing was logged since the last one. */
  lemma FlushEverything(s: Sys) returns (more: seq<Step>, s': Sys)
    requires s.mode.Running? && s.mode.mvcc.db.latch.Free? && s.mode.todo.None? && W.CanLog(s.wal.wal)
    ensures Leads(s, more, s') && s'.mode.Running? && s'.mode.todo == Some({})
    ensures s'.mode.mvcc.spec == s.mode.mvcc.spec && s'.mode.mvcc.db == s.mode.mvcc.db.(latch := M.Paused)
    ensures if s'.wal.wal.dirty then Enabled(s', MakeDurable(true)) else W.CanLog(s'.wal.wal)
    ensures s.dirty == {} && s.clocks == Clocks(s.mode.mvcc.db.lastCommitTs, s.mode.mvcc.db.nextTxnId) ==>
            s'.wal == s.wal
  {
    var s1 := Next(s, Db(M.Pause));
    var s2 := Next(s1, StartFlush);
    more, s' := FlushPages(s2);
    LeadsFirst(s1, StartFlush, more, s');
    LeadsFirst(s, Db(M.Pause), [StartFlush] + more, s');
    more := [Db(M.Pause)] + ([StartFlush] + more);
  }

  lemma NoFlush(s: Sys)
    requires SysOk(s) && s.mode.Running? && s.mode.mvcc.db.latch.Free?
    ensures s.mode.todo.None?
  {
    assert FlushOk(s.mode.mvcc, s.mode.todo, s.clocks, s.Logged(), s.Undos());
  }

  lemma ReachDurable(s: Sys) returns (more: seq<Step>, s': Sys)
    requires Inv(s) && StageOk(s.wal.wal) && s.mode.Running? && s.mode.mvcc.db.latch.Free? && !s.wal.wal.broken
    ensures Leads(s, more, s') && s'.mode.Running? && s'.mode.todo == Some({})
    ensures s'.mode.mvcc.spec == s.mode.mvcc.spec && (Enabled(s', MakeDurable(true)) || !s'.wal.wal.dirty)
  {
    NoFlush(s);
    var a, s1 := FinishCheckpoint(s);
    more, s' := FlushEverything(s1);
    LeadsOn(s, a, s1, more, s');
    more := a + more;
  }

  /** From every running state with no commit or abort under way and a log that works, a durable point of exactly the
      commits so far can be made. */
  lemma CanMakeDurable(data: Pages, rows: Rows, steps: seq<Step>) returns (more: seq<Step>)
    requires Recovers(data, map[], rows) && Run(Start(data, rows), steps).Some?
    requires var s := Run(Start(data, rows), steps).value;
             s.mode.Running? && s.mode.mvcc.db.latch.Free? && !s.wal.wal.broken
    ensures NoCrash(more) && Run(Start(data, rows), steps + more).Some?
    ensures var s, s' := Run(Start(data, rows), steps).value, Run(Start(data, rows), steps + more).value;
            && s'.mode.Running? && s'.mode.mvcc.spec == s.mode.mvcc.spec
            && (Enabled(s', MakeDurable(true)) || !s'.wal.wal.dirty)
  {
    var start := Start(data, rows);
    RunStage(data, rows, steps);
    RunKeepsInv(data, rows, steps);
    var s';
    more, s' := ReachDurable(Run(start, steps).value);
    RunConcat(start, steps, more);
  }
}
