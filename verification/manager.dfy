/**
 * The data sets manager daemon: its configuration, the staging queue and the
 * running staging commands, the operations the dataset sources call on the
 * queue, one scheduling tick, and the main loop's scan cadence.
 */
module Manager {

  import opened Wrappers
  import opened StageQueue
  import opened TransferTick
  import opened DataSetsConf

  /**
   * The main loop's counter at the start of iteration i: it starts at the scan
   * period e, and a scan happens (and resets it) when it equals e on entry.
   */
  function CounterAt(e: nat, i: nat): (c: nat)
    ensures c <= e
  {
    if i == 0 then e
    else
      var p := CounterAt(e, i - 1);
      if p == e then 0 else p + 1
  }

  /** Whether iteration i of the main loop scans the dataset sources. */
  predicate ScansAt(e: nat, i: nat)
  {
    CounterAt(e, i) == e
  }

  /** Euclidean division is unique: a remainder in range pins down `%`. */
  lemma ModUnique(a: nat, m: nat, q: nat, r: nat)
    requires m > 0 && r < m && a == m * q + r
    ensures a % m == r
  {
    var q0, r0 := a / m, a % m;
    assert a == m * q0 + r0;
    if q0 < q {
      MulMonotone(m, q0 + 1, q);
    } else if q < q0 {
      MulMonotone(m, q + 1, q0);
    }
  }

  lemma MulMonotone(m: nat, a: nat, b: nat)
    requires a <= b
    ensures m * a <= m * b
  {
    assert m * b == m * a + m * (b - a);
  }

  /** The remainder of x + 1 follows the remainder of x, wrapping at m. */
  lemma ModSucc(x: nat, m: nat)
    requires m > 0
    ensures (x + 1) % m == if x % m == m - 1 then 0 else x % m + 1
  {
    var q, r := x / m, x % m;
    assert x == m * q + r;
    if r == m - 1 {
      assert x + 1 == m * (q + 1) + 0;
      ModUnique(x + 1, m, q + 1, 0);
    } else {
      assert x + 1 == m * q + (r + 1);
      ModUnique(x + 1, m, q, r + 1);
    }
  }

  /** The counter in closed form: it runs through e, 0, 1, ..., e again. */
  lemma {:induction false} CounterClosedForm(e: nat, i: nat)
    ensures CounterAt(e, i) == (e + i) % (e + 1)
  {
    if i == 0 {
      ModUnique(e, e + 1, 0, e);
    } else {
      CounterClosedForm(e, i - 1);
      ModSucc(e + i - 1, e + 1);
    }
  }

  /** x + m - 1 leaves remainder m - 1 exactly when m divides x. */
  lemma ModPred(x: nat, m: nat)
    requires m > 0
    ensures (x + m - 1) % m == m - 1 <==> x % m == 0
  {
    var q, r := x / m, x % m;
    assert x == m * q + r;
    if r == 0 {
      ModUnique(x + m - 1, m, q, m - 1);
    } else {
      assert m * (q + 1) == m * q + m;
      ModUnique(x + m - 1, m, q + 1, r - 1);
    }
  }

  /** Cadence: the sources are scanned on the first iteration and then every e + 1 iterations, never in between. */
  lemma ScanCadence(e: nat, i: nat)
    ensures ScansAt(e, i) <==> i % (e + 1) == 0
  {
    CounterClosedForm(e, i);
    ModPred(i, e + 1);
    assert i + (e + 1) - 1 == e + i;
  }

  /** Whether each of the first n iterations scans the sources. */
  function ScanFlags(e: nat, n: nat): (r: seq<bool>)
    ensures |r| == n
  {
    if n == 0 then [] else ScanFlags(e, n - 1) + [ScansAt(e, n - 1)]
  }

  /** Appending iteration n's flag to the first n flags gives the first n + 1. */
  lemma ScanFlagsNext(e: nat, n: nat, flags: seq<bool>, scan: bool)
    requires flags == ScanFlags(e, n) && scan == ScansAt(e, n)
    ensures flags + [scan] == ScanFlags(e, n + 1)
  {
  }

  /** Iteration k scans exactly when k is a multiple of e + 1. */
  lemma {:induction false} ScanFlagsCadence(e: nat, n: nat)
    ensures forall k :: 0 <= k < n ==> (ScanFlags(e, n)[k] <==> k % (e + 1) == 0)
  {
    if n > 0 {
      ScanFlagsCadence(e, n - 1);
      ScanCadence(e, n - 1);
      assert forall k :: 0 <= k < n - 1 ==> ScanFlags(e, n)[k] == ScanFlags(e, n - 1)[k];
    }
  }

  /**
   * The scheduler after n iterations of the main loop: iteration i runs a tick
   * polling with polls(i) and then, when it scans the sources, applies the
   * queue operations they perform, scanOps(i).
   */
  function LoopRun(s: Sched, polls: nat -> nat -> CmdState, scanOps: nat -> seq<QueueOp>,
                   e: nat, limit: int, n: nat): Sched
  {
    if n == 0 then s
    else
      var t := Tick(LoopRun(s, polls, scanOps, e, limit, n - 1), polls(n - 1), limit);
      if ScansAt(e, n - 1) then ApplyOps(t, scanOps(n - 1)) else t
  }

  /** One more iteration of the main loop. */
  lemma LoopRunStep(s: Sched, polls: nat -> nat -> CmdState, scanOps: nat -> seq<QueueOp>,
                    e: nat, limit: int, n: nat, scan: bool)
    requires scan == ScansAt(e, n)
    ensures var t := Tick(LoopRun(s, polls, scanOps, e, limit, n), polls(n), limit);
      LoopRun(s, polls, scanOps, e, limit, n + 1) == if scan then ApplyOps(t, scanOps(n)) else t
  {
  }

  /**
   * Bounded concurrency over the whole loop, scans included: the scheduler
   * stays valid, at most `limit` commands run, and Staging entries never
   * outnumber them.
   */
  lemma {:induction false} LoopRunBounded(s: Sched, polls: nat -> nat -> CmdState, scanOps: nat -> seq<QueueOp>,
                                          e: nat, limit: int, n: nat)
    requires SchedValid(s) && |s.cmds| <= limit
    ensures var t := LoopRun(s, polls, scanOps, e, limit, n);
      SchedValid(t) && StagingCount(t.queue) <= |t.cmds| <= limit
  {
    LoopRunValid(s, polls, scanOps, e, limit, n);
    var t := LoopRun(s, polls, scanOps, e, limit, n);
    StagingAtMostCmds(t.queue, t.cmds);
  }

  /** Each iteration keeps the scheduler valid and within the limit. */
  lemma {:induction false} LoopRunValid(s: Sched, polls: nat -> nat -> CmdState, scanOps: nat -> seq<QueueOp>,
                                        e: nat, limit: int, n: nat)
    requires SchedValid(s) && |s.cmds| <= limit
    ensures SchedValid(LoopRun(s, polls, scanOps, e, limit, n))
    ensures |LoopRun(s, polls, scanOps, e, limit, n).cmds| <= limit
  {
    if n > 0 {
      LoopRunValid(s, polls, scanOps, e, limit, n - 1);
      IterationValid(LoopRun(s, polls, scanOps, e, limit, n - 1), polls(n - 1), scanOps(n - 1), ScansAt(e, n - 1), limit);
    }
  }

  /** One iteration from a valid state within the limit stays so. */
  lemma IterationValid(p: Sched, poll: nat -> CmdState, ops: seq<QueueOp>, scan: bool, limit: int)
    requires SchedValid(p) && |p.cmds| <= limit
    ensures var t := Tick(p, poll, limit);
      var r := if scan then ApplyOps(t, ops) else t;
      SchedValid(r) && |r.cmds| <= limit
  {
    TickPreserves(p, poll, limit);
    ApplyOpsKeepsValid(Tick(p, poll, limit), ops);
  }

  /** When the scans leave the queue alone, the loop is n ticks in a row. */
  lemma {:induction false} LoopRunNoScanOps(s: Sched, polls: nat -> nat -> CmdState, scanOps: nat -> seq<QueueOp>,
                                            e: nat, limit: int, n: nat)
    requires forall i :: 0 <= i < n ==> scanOps(i) == []
    ensures LoopRun(s, polls, scanOps, e, limit, n) == TickN(s, polls, limit, n)
  {
    if n > 0 {
      LoopRunNoScanOps(s, polls, scanOps, e, limit, n - 1);
      assert scanOps(n - 1) == [];
    }
  }

  /** ReadConf's walk over the `xpd.datasetsrc` lines: each line `parse` accepts is added to the list in turn. */
  method CollectSources<T>(lines: seq<string>, parse: string -> Option<T>) returns (srcs: seq<T>)
    ensures srcs == Collect(lines, parse)
  {
    srcs := [];
    var i := 0;
    while i < |lines|
      invariant 0 <= i <= |lines|
      invariant srcs == Collect(lines[..i], parse)
    {
      assert lines[..i + 1][..i] == lines[..i];
      var src := parse(lines[i]);
      if src.Some? {
        srcs := srcs + [src.value];
      }
      i := i + 1;
    }
    assert lines[..i] == lines;
  }

  /** The manager: configuration read from the file, plus the scheduler's queue and commands. */
  class DataSetsManager {
    var srcList: seq<DataSetSrc>
    var loopSleep: int
    var scanDsEvery: int
    var parallelXfrs: int
    var stageCmd: string
    var queue: seq<Entry>
    var cmds: seq<Cmd>
    var nextId: nat

    /** One entry per URL, commands in creation order, a command for every Staging entry, every tunable positive. */
    predicate Valid()
      reads this
    {
      && SchedValid(State())
      && loopSleep > 0 && scanDsEvery > 0 && parallelXfrs > 0
    }

    /** The scheduler's part of the state. */
    function State(): Sched
      reads this
    {
      Sched(queue, cmds, nextId)
    }

    /** A manager with the default tunables, no sources, an empty queue and no commands. */
    constructor()
      ensures Valid()
      ensures srcList == [] && stageCmd == ""
      ensures loopSleep == DefaultLoopSleep && scanDsEvery == DefaultScanDsEvery
      ensures parallelXfrs == DefaultParallelXfrs
      ensures queue == [] && cmds == [] && nextId == 0
    {
      srcList := [];
      loopSleep := DefaultLoopSleep;
      scanDsEvery := DefaultScanDsEvery;
      parallelXfrs := DefaultParallelXfrs;
      stageCmd := "";
      queue := [];
      cmds := [];
      nextId := 0;
    }

    /**
     * ReadConf: an unreadable file (None) changes nothing. Otherwise the source
     * list is emptied and each tunable set from its directive or its default;
     * a missing stage command stops there with failure; else every valid
     * `xpd.datasetsrc` line becomes a source, and reading succeeds iff at least
     * one did.
     */
    method ReadConf(cf: Option<ConfFile>, mssValid: string -> bool) returns (ok: bool)
      requires Valid()
      modifies this
      ensures queue == old(queue) && cmds == old(cmds) && nextId == old(nextId)
      ensures Valid()
      ensures cf.None? ==> !ok && unchanged(this)
      ensures cf.Some? ==>
        && loopSleep == NumericDirective(cf.value.sleepSecs, DefaultLoopSleep)
        && scanDsEvery == NumericDirective(cf.value.scanDsEvery, DefaultScanDsEvery)
        && parallelXfrs == NumericDirective(cf.value.parallelXfrs, DefaultParallelXfrs)
      ensures cf.Some? && cf.value.stageCmd.None? ==> !ok && srcList == [] && stageCmd == old(stageCmd)
      ensures cf.Some? && cf.value.stageCmd.Some? ==>
        && stageCmd == cf.value.stageCmd.value
        && srcList == ParseSources(cf.value.datasetSrc, mssValid, cf.value.processDs)
        && ok == (srcList != [])
    {
      if cf.None? {
        return false;
      }
      var c := cf.value;
      srcList := [];
      loopSleep := NumericDirective(c.sleepSecs, DefaultLoopSleep);
      scanDsEvery := NumericDirective(c.scanDsEvery, DefaultScanDsEvery);
      parallelXfrs := NumericDirective(c.parallelXfrs, DefaultParallelXfrs);
      if c.stageCmd.None? {
        return false;
      }
      stageCmd := c.stageCmd.value;
      srcList := CollectSources(c.datasetSrc, SourceParser(mssValid, c.processDs));
      ok := |srcList| > 0;
    }

    /** GetStageStatus: Absent for an untracked URL, else the status of its entry. */
    function GetStageStatus(url: string): (r: StgStatus)
      reads this
      ensures r == Absent <==> forall k :: 0 <= k < |queue| ==> queue[k].url != url
      ensures r != Absent ==> exists k :: 0 <= k < |queue| && queue[k] == Entry(url, r)
    {
      StatusOf(queue, url)
    }

    /** EnqueueUrl: adds a Queue entry at the end iff the URL is untracked, and says whether it did. */
    method EnqueueUrl(url: string) returns (added: bool)
      requires Valid()
      modifies this`queue
      ensures Valid()
      ensures added == (StatusOf(old(queue), url) == Absent)
      ensures queue == Enqueued(old(queue), url)
      ensures GetStageStatus(url) == if added then Queue else StatusOf(old(queue), url)
      ensures cmds == old(cmds) && nextId == old(nextId)
    {
      ghost var s := State();
      EnqueueTracks(queue, url, url);
      EnqueueKeepsCovered(s, url);
      assert SchedValid(Sched(Enqueued(s.queue, url), s.cmds, s.nextId));
      if EntryIndex(queue, url) < 0 {
        queue := queue + [Entry(url, Queue)];
        added := true;
      } else {
        added := false;
      }
    }

    /**
     * DequeueUrl: removes the URL's entry if there is one, and says whether it
     * did. A running command of a removed Staging entry is left running.
     */
    method DequeueUrl(url: string) returns (removed: bool)
      requires Valid()
      modifies this`queue
      ensures Valid()
      ensures removed == (StatusOf(old(queue), url) != Absent)
      ensures queue == Dequeued(old(queue), url)
      ensures GetStageStatus(url) == Absent
      ensures cmds == old(cmds) && nextId == old(nextId)
    {
      DequeueKeepsValid(State(), url);
      removed := EntryIndex(queue, url) >= 0;
      queue := Dequeued(queue, url);
    }

    /**
     * ProcessTransferQueue: pass 1 walks the queue and settles every Staging
     * entry whose command finished, dropping that command; pass 2 walks it
     * again and starts a command for each Queue entry while fewer than
     * `parallelXfrs` run. `poll` is what each command's thread reports.
     */
    method ProcessTransferQueue(poll: nat -> CmdState)
      requires Valid()
      modifies this`queue, this`cmds, this`nextId
      ensures Valid()
      ensures State() == Tick(old(State()), poll, parallelXfrs)
    {
      ghost var s0 := State();
      ReapPass(poll);
      AdmitPass();
      TickPreserves(s0, poll, parallelXfrs);
    }

    /** Pass 1 of ProcessTransferQueue, entry by entry in queue order. */
    method ReapPass(poll: nat -> CmdState)
      modifies this`queue, this`cmds, this`nextId
      ensures State() == Reap(old(State()), poll)
    {
      ghost var s0 := State();
      var i := 0;
      while i < |queue|
        invariant 0 <= i <= |queue| == |s0.queue|
        invariant State() == ReapUpTo(s0, poll, i)
      {
        ghost var pre := State();
        var e := queue[i];
        if e.status == Staging {
          var j := CmdIndex(cmds, e.url);
          if j >= 0 {
            match poll(cmds[j].id)
            case Finished(ok) =>
              queue := queue[i := Entry(e.url, if ok then Done else Fail)];
              cmds := cmds[..j] + cmds[j + 1..];
            case _ =>
          }
        }
        assert State() == ReapStep(pre, i, poll);
        i := i + 1;
      }
    }

    /** Pass 2 of ProcessTransferQueue, entry by entry in queue order. */
    method AdmitPass()
      modifies this`queue, this`cmds, this`nextId
      ensures State() == Admit(old(State()), parallelXfrs)
    {
      ghost var s0 := State();
      var i := 0;
      while i < |queue|
        invariant 0 <= i <= |queue| == |s0.queue|
        invariant State() == AdmitUpTo(s0, parallelXfrs, i)
      {
        var e := queue[i];
        if e.status == Queue && |cmds| < parallelXfrs {
          cmds := cmds + [Cmd(nextId, e.url)];
          nextId := nextId + 1;
          queue := queue[i := Entry(e.url, Staging)];
        }
        i := i + 1;
      }
    }

    /**
     * Processing the dataset sources, as far as the queue is concerned: the
     * enqueues and dequeues they perform, in order.
     */
    method ScanSources(ops: seq<QueueOp>)
      requires Valid()
      modifies this`queue, this`cmds, this`nextId
      ensures Valid()
      ensures State() == ApplyOps(old(State()), ops)
    {
      ghost var s0 := State();
      var j := 0;
      while j < |ops|
        invariant 0 <= j <= |ops|
        invariant Valid()
        invariant State() == ApplyOps(s0, ops[..j])
      {
        assert ops[..j + 1][..j] == ops[..j];
        match ops[j] {
          case Enq(u) =>
            var added := EnqueueUrl(u);
          case Deq(u) =>
            var removed := DequeueUrl(u);
        }
        j := j + 1;
      }
      assert ops[..j] == ops;
    }

    /**
     * Iteration i of the main loop, from the state the first i left and with
     * the counter `loops` it starts with: a tick, then, when the counter says
     * so, the queue operations the sources perform; `next` is the counter the
     * following iteration starts with.
     */
    method Iteration(ghost s0: Sched, polls: nat -> nat -> CmdState, scanOps: nat -> seq<QueueOp>, i: nat, loops: nat)
      returns (scan: bool, next: nat)
      requires Valid() && loops == CounterAt(scanDsEvery, i)
      requires State() == LoopRun(s0, polls, scanOps, scanDsEvery, parallelXfrs, i)
      modifies this`queue, this`cmds, this`nextId
      ensures Valid()
      ensures scan == ScansAt(scanDsEvery, i) && next == CounterAt(scanDsEvery, i + 1)
      ensures State() == LoopRun(s0, polls, scanOps, scanDsEvery, parallelXfrs, i + 1)
    {
      scan := loops == scanDsEvery;
      LoopRunStep(s0, polls, scanOps, scanDsEvery, parallelXfrs, i, scan);
      ProcessTransferQueue(polls(i));
      if scan {
        ScanSources(scanOps(i));
      }
      next := if scan then 0 else loops + 1;
    }

    /**
     * Loop, for `fuel` iterations: each runs a tick (the i-th polling with
     * polls(i)), then, when the counter says so, processes the dataset sources,
     * which perform the queue operations scanOps(i); in single-shot mode it
     * stops after the first iteration, which always scans. `scans` records,
     * per iteration, whether the sources were processed.
     */
    method Loop(runOnce: bool, fuel: nat, polls: nat -> nat -> CmdState, scanOps: nat -> seq<QueueOp>)
      returns (scans: seq<bool>)
      requires Valid()
      modifies this`queue, this`cmds, this`nextId
      ensures Valid()
      ensures |scans| == if runOnce && fuel > 0 then 1 else fuel
      ensures scans == ScanFlags(scanDsEvery, |scans|)
      ensures State() == LoopRun(old(State()), polls, scanOps, scanDsEvery, parallelXfrs, |scans|)
    {
      ghost var s0 := State();
      var loops := scanDsEvery;
      scans := [];
      var i := 0;
      while i < fuel
        invariant 0 <= i <= fuel && |scans| == i
        invariant Valid()
        invariant loops == CounterAt(scanDsEvery, i)
        invariant scans == ScanFlags(scanDsEvery, i)
        invariant State() == LoopRun(s0, polls, scanOps, scanDsEvery, parallelXfrs, i)
        invariant runOnce ==> i == 0
      {
        var scan;
        scan, loops := Iteration(s0, polls, scanOps, i, loops);
        ScanFlagsNext(scanDsEvery, i, scans, scan);
        scans := scans + [scan];
        i := i + 1;
        if scan && runOnce {
          break;
        }
      }
    }
  }

  /** Enqueueing three distinct URLs into an empty queue lists them in order, all Queue. */
  lemma EnqueueThree(u1: string, u2: string, u3: string)
    requires u1 != u2 && u2 != u3 && u1 != u3
    ensures Enqueued(Enqueued(Enqueued([], u1), u2), u3) == [Entry(u1, Queue), Entry(u2, Queue), Entry(u3, Queue)]
  {
    assert Enqueued([], u1) == [Entry(u1, Queue)];
    assert Enqueued([Entry(u1, Queue)], u2) == [Entry(u1, Queue), Entry(u2, Queue)];
  }

  /** First tick of the scenario: nothing to reap, the first two URLs admitted. */
  lemma ScenarioFirstTick(u1: string, u2: string, u3: string, poll: nat -> CmdState)
    ensures Tick(Sched([Entry(u1, Queue), Entry(u2, Queue), Entry(u3, Queue)], [], 0), poll, 2)
      == Sched([Entry(u1, Staging), Entry(u2, Staging), Entry(u3, Queue)], [Cmd(0, u1), Cmd(1, u2)], 2)
  {
    var s0 := Sched([Entry(u1, Queue), Entry(u2, Queue), Entry(u3, Queue)], [], 0);
    assert ReapUpTo(s0, poll, 1) == s0;
    assert ReapUpTo(s0, poll, 2) == s0;
    assert Reap(s0, poll) == s0;
    var a1 := Sched([Entry(u1, Staging), Entry(u2, Queue), Entry(u3, Queue)], [Cmd(0, u1)], 1);
    var a2 := Sched([Entry(u1, Staging), Entry(u2, Staging), Entry(u3, Queue)], [Cmd(0, u1), Cmd(1, u2)], 2);
    assert AdmitUpTo(s0, 2, 1) == a1;
    assert AdmitUpTo(s0, 2, 2) == a2;
    assert AdmitUpTo(s0, 2, 3) == a2;
  }

  /** Second tick of the scenario: the first command succeeded, the second failed, the third URL admitted. */
  lemma ScenarioSecondTick(u1: string, u2: string, u3: string, poll: nat -> CmdState)
    requires u1 != u2 && u2 != u3 && u1 != u3
    requires poll(0) == Finished(true) && poll(1) == Finished(false)
    ensures Tick(Sched([Entry(u1, Staging), Entry(u2, Staging), Entry(u3, Queue)], [Cmd(0, u1), Cmd(1, u2)], 2), poll, 2)
      == Sched([Entry(u1, Done), Entry(u2, Fail), Entry(u3, Staging)], [Cmd(2, u3)], 3)
  {
    var s1 := Sched([Entry(u1, Staging), Entry(u2, Staging), Entry(u3, Queue)], [Cmd(0, u1), Cmd(1, u2)], 2);
    var r1 := Sched([Entry(u1, Done), Entry(u2, Staging), Entry(u3, Queue)], [Cmd(1, u2)], 2);
    var r2 := Sched([Entry(u1, Done), Entry(u2, Fail), Entry(u3, Queue)], [], 2);
    assert CmdIndex(s1.cmds, u1) == 0;
    assert ReapUpTo(s1, poll, 1) == r1;
    assert CmdIndex(r1.cmds, u2) == 0;
    assert ReapUpTo(s1, poll, 2) == r2;
    assert Reap(s1, poll) == r2;
    assert AdmitUpTo(r2, 2, 1) == r2;
    assert AdmitUpTo(r2, 2, 2) == r2;
    assert AdmitUpTo(r2, 2, 3) == Sched([Entry(u1, Done), Entry(u2, Fail), Entry(u3, Staging)], [Cmd(2, u3)], 3);
  }

  /**
   * The end-to-end run with a budget of two: three URLs enqueued; the first
   * tick starts the first two and leaves the third queued; when the first
   * command succeeds and the second fails, the next tick settles them Done and
   * Fail and starts the third.
   */
  lemma TwoSlotScenario(u1: string, u2: string, u3: string, poll1: nat -> CmdState, poll2: nat -> CmdState)
    requires u1 != u2 && u2 != u3 && u1 != u3
    requires poll2(0) == Finished(true) && poll2(1) == Finished(false)
    ensures var s0 := Sched(Enqueued(Enqueued(Enqueued([], u1), u2), u3), [], 0);
      var s1 := Tick(s0, poll1, 2);
      var s2 := Tick(s1, poll2, 2);
      && s1.queue == [Entry(u1, Staging), Entry(u2, Staging), Entry(u3, Queue)]
      && s1.cmds == [Cmd(0, u1), Cmd(1, u2)]
      && s2.queue == [Entry(u1, Done), Entry(u2, Fail), Entry(u3, Staging)]
      && s2.cmds == [Cmd(2, u3)]
  {
    EnqueueThree(u1, u2, u3);
    ScenarioFirstTick(u1, u2, u3, poll1);
    ScenarioSecondTick(u1, u2, u3, poll2);
  }
}
