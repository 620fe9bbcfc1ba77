/**
 * One scheduling tick of the transfer queue, as a function of the scheduler's
 * state: pass 1 reaps finished commands, pass 2 admits queued URLs while fewer
 * than the configured number of commands run. Each pass is a left fold over the
 * queue, entry by entry, exactly as the two iterator loops walk it.
 */
module TransferTick {

  import opened Wrappers
  import opened StageQueue

  // ---------------------------------------------------------------------
  // Pass 1: reap

  /** Pass 1 on entry k: a Staging entry whose first same-named command has finished becomes Done or Fail, and that command is dropped. */
  function ReapStep(s: Sched, k: nat, poll: nat -> CmdState): (r: Sched)
    requires k < |s.queue|
    ensures |r.queue| == |s.queue| && r.nextId == s.nextId
  {
    var e := s.queue[k];
    if e.status != Staging then s
    else
      var j := CmdIndex(s.cmds, e.url);
      if j < 0 then s
      else
        match poll(s.cmds[j].id)
        case Finished(ok) =>
          Sched(s.queue[k := Entry(e.url, if ok then Done else Fail)], s.cmds[..j] + s.cmds[j + 1..], s.nextId)
        case _ => s
  }

  /** Pass 1 over the first n entries. */
  function ReapUpTo(s: Sched, poll: nat -> CmdState, n: nat): (r: Sched)
    requires n <= |s.queue|
    ensures |r.queue| == |s.queue| && r.nextId == s.nextId
  {
    if n == 0 then s else ReapStep(ReapUpTo(s, poll, n - 1), n - 1, poll)
  }

  function Reap(s: Sched, poll: nat -> CmdState): Sched
  {
    ReapUpTo(s, poll, |s.queue|)
  }

  /** Entry k is Staging and the first command carrying its URL reports Finished. */
  predicate Reapable(s: Sched, poll: nat -> CmdState, k: nat)
    requires k < |s.queue|
  {
    var c := FirstCmd(s.cmds, s.queue[k].url);
    s.queue[k].status == Staging && c.Some? && poll(c.value.id).Finished?
  }

  /** What entry k becomes in pass 1, judged against the command list as it was before the pass. */
  function ReapVerdict(s: Sched, poll: nat -> CmdState, k: nat): EntryStatus
    requires k < |s.queue|
  {
    if Reapable(s, poll, k) then
      (if poll(FirstCmd(s.cmds, s.queue[k].url).value.id).ok then Done else Fail)
    else s.queue[k].status
  }

  /** The commands pass 1 drops while walking the first n entries, in queue order. */
  function ReapedCmds(s: Sched, poll: nat -> CmdState, n: nat): seq<Cmd>
    requires n <= |s.queue|
  {
    if n == 0 then []
    else
      ReapedCmds(s, poll, n - 1)
      + (if Reapable(s, poll, n - 1) then [FirstCmd(s.cmds, s.queue[n - 1].url).value] else [])
  }

  /** Dropping a command of another name leaves the first command named u where it was. */
  lemma RemoveKeepsOtherFirst(cmds: seq<Cmd>, j: nat, u: string)
    requires j < |cmds| && cmds[j].url != u
    ensures FirstCmd(cmds[..j] + cmds[j + 1..], u) == FirstCmd(cmds, u)
  {
    var rest := cmds[..j] + cmds[j + 1..];
    assert forall k :: 0 <= k < |rest| ==> rest[k] == if k < j then cmds[k] else cmds[k + 1];
    var i := CmdIndex(cmds, u);
    if i < 0 {
      assert forall k :: 0 <= k < |rest| ==> rest[k].url != u;
    } else {
      var i' := if i < j then i else i - 1;
      assert rest[i'] == cmds[i];
      assert forall k :: 0 <= k < i' ==> rest[k].url != u;
      assert CmdIndex(rest, u) == i';
    }
  }

  /** A step of pass 1 that settles entry k: its verdict is recorded and exactly its command is dropped. */
  lemma ReapStepEffect(p: Sched, k: nat, poll: nat -> CmdState)
    requires k < |p.queue| && Reapable(p, poll, k)
    ensures var e := p.queue[k];
      var c := FirstCmd(p.cmds, e.url).value;
      && ReapStep(p, k, poll).queue == p.queue[k := Entry(e.url, if poll(c.id).ok then Done else Fail)]
      && multiset(p.cmds) == multiset(ReapStep(p, k, poll).cmds) + multiset{c}
      && (forall u :: u != e.url ==> FirstCmd(ReapStep(p, k, poll).cmds, u) == FirstCmd(p.cmds, u))
  {
    var e := p.queue[k];
    var j := CmdIndex(p.cmds, e.url);
    var rest := p.cmds[..j] + p.cmds[j + 1..];
    assert ReapStep(p, k, poll).cmds == rest;
    assert p.cmds == p.cmds[..j] + [p.cmds[j]] + p.cmds[j + 1..];
    forall u | u != e.url ensures FirstCmd(rest, u) == FirstCmd(p.cmds, u) {
      RemoveKeepsOtherFirst(p.cmds, j, u);
    }
  }

  /** After pass 1 has walked n entries: those are judged against the original command list, the rest are untouched. */
  predicate ReapEntriesUpTo(s: Sched, poll: nat -> CmdState, n: nat, r: Sched)
    requires n <= |s.queue|
  {
    && |r.queue| == |s.queue|
    && (forall k {:trigger r.queue[k]} :: 0 <= k < n ==> r.queue[k] == Entry(s.queue[k].url, ReapVerdict(s, poll, k)))
    && (forall k {:trigger r.queue[k]} :: n <= k < |s.queue| ==> r.queue[k] == s.queue[k])
  }

  /** The entries not walked yet still find the same first command in `cmds` as in the original list. */
  predicate ReapLookupsFrom(s: Sched, n: nat, cmds: seq<Cmd>)
    requires n <= |s.queue|
  {
    forall k {:trigger FirstCmd(cmds, s.queue[k].url)} :: n <= k < |s.queue| ==> FirstCmd(cmds, s.queue[k].url) == FirstCmd(s.cmds, s.queue[k].url)
  }

  /** One step of pass 1 (on entry n - 1), on the entries. */
  lemma ReapStepEntries(s: Sched, poll: nat -> CmdState, n: nat, p: Sched)
    requires 0 < n <= |s.queue| && ReapEntriesUpTo(s, poll, n - 1, p) && ReapLookupsFrom(s, n - 1, p.cmds)
    ensures ReapEntriesUpTo(s, poll, n, ReapStep(p, n - 1, poll))
  {
    var e := s.queue[n - 1];
    assert p.queue[n - 1] == e;
    assert FirstCmd(p.cmds, e.url) == FirstCmd(s.cmds, e.url);
    if Reapable(s, poll, n - 1) {
      ReapStepEntriesSettled(s, poll, n, p);
    } else {
      ReapStepEntriesIdle(s, poll, n, p);
    }
  }

  /** Entry n - 1 is settled: it alone takes its verdict. */
  lemma ReapStepEntriesSettled(s: Sched, poll: nat -> CmdState, n: nat, p: Sched)
    requires 0 < n <= |s.queue| && ReapEntriesUpTo(s, poll, n - 1, p) && Reapable(s, poll, n - 1)
    requires FirstCmd(p.cmds, s.queue[n - 1].url) == FirstCmd(s.cmds, s.queue[n - 1].url)
    ensures ReapEntriesUpTo(s, poll, n, ReapStep(p, n - 1, poll))
  {
    var e := s.queue[n - 1];
    assert p.queue[n - 1] == e;
    assert Reapable(p, poll, n - 1);
    ReapStepEffect(p, n - 1, poll);
    var r := ReapStep(p, n - 1, poll);
    assert r.queue == p.queue[n - 1 := Entry(e.url, ReapVerdict(s, poll, n - 1))];
    forall k | 0 <= k < n - 1 ensures r.queue[k] == Entry(s.queue[k].url, ReapVerdict(s, poll, k)) {
      assert r.queue[k] == p.queue[k];
    }
    forall k | n <= k < |s.queue| ensures r.queue[k] == s.queue[k] {
      assert r.queue[k] == p.queue[k];
    }
  }

  /** Entry n - 1 is not settled: nothing changes, and its verdict is its status. */
  lemma ReapStepEntriesIdle(s: Sched, poll: nat -> CmdState, n: nat, p: Sched)
    requires 0 < n <= |s.queue| && ReapEntriesUpTo(s, poll, n - 1, p) && !Reapable(s, poll, n - 1)
    requires FirstCmd(p.cmds, s.queue[n - 1].url) == FirstCmd(s.cmds, s.queue[n - 1].url)
    ensures ReapEntriesUpTo(s, poll, n, ReapStep(p, n - 1, poll))
  {
    assert p.queue[n - 1] == s.queue[n - 1];
    assert !Reapable(p, poll, n - 1);
    ReapStepIdle(p, n - 1, poll);
  }

  /** One step of pass 1 (on entry n - 1), on the lookups of the entries after it: URLs being unique, the dropped command is nobody else's first. */
  lemma ReapStepLookups(s: Sched, poll: nat -> CmdState, n: nat, p: Sched)
    requires UniqueUrls(s.queue) && 0 < n <= |s.queue| && |p.queue| == |s.queue| && p.queue[n - 1] == s.queue[n - 1]
    requires ReapLookupsFrom(s, n - 1, p.cmds)
    ensures ReapLookupsFrom(s, n, ReapStep(p, n - 1, poll).cmds)
  {
    var e := s.queue[n - 1];
    if Reapable(p, poll, n - 1) {
      ReapStepEffect(p, n - 1, poll);
    } else {
      ReapStepIdle(p, n - 1, poll);
    }
    var r := ReapStep(p, n - 1, poll);
    forall k | n <= k < |s.queue|
      ensures FirstCmd(r.cmds, s.queue[k].url) == FirstCmd(s.cmds, s.queue[k].url)
    {
      assert s.queue[k].url != e.url;
      assert FirstCmd(p.cmds, s.queue[k].url) == FirstCmd(s.cmds, s.queue[k].url);
    }
  }

  /**
   * Pass 1 judges each entry against the ORIGINAL command list (queue URLs being
   * unique, dropping another URL's command never changes a later lookup) and
   * changes nothing past the entries walked.
   */
  lemma {:induction false} ReapUpToEntries(s: Sched, poll: nat -> CmdState, n: nat)
    requires UniqueUrls(s.queue) && n <= |s.queue|
    ensures ReapEntriesUpTo(s, poll, n, ReapUpTo(s, poll, n))
    ensures ReapLookupsFrom(s, n, ReapUpTo(s, poll, n).cmds)
  {
    if n > 0 {
      ReapUpToEntries(s, poll, n - 1);
      var p := ReapUpTo(s, poll, n - 1);
      ReapStepEntries(s, poll, n, p);
      ReapStepLookups(s, poll, n, p);
    }
  }

  /** Pass 1 drops exactly the commands it reaped: the old list is the new one plus those. */
  lemma {:induction false} ReapUpToDrops(s: Sched, poll: nat -> CmdState, n: nat)
    requires UniqueUrls(s.queue) && n <= |s.queue|
    ensures multiset(s.cmds) == multiset(ReapUpTo(s, poll, n).cmds) + multiset(ReapedCmds(s, poll, n))
  {
    if n > 0 {
      ReapUpToDrops(s, poll, n - 1);
      ReapUpToEntries(s, poll, n - 1);
      var p := ReapUpTo(s, poll, n - 1);
      assert p.queue[n - 1] == s.queue[n - 1];
      assert FirstCmd(p.cmds, s.queue[n - 1].url) == FirstCmd(s.cmds, s.queue[n - 1].url);
      ReapDropsStep(s, poll, n, p);
    }
  }

  /** One step of pass 1 (on entry n - 1) drops the command ReapedCmds records for it, and no other. */
  lemma ReapDropsStep(s: Sched, poll: nat -> CmdState, n: nat, p: Sched)
    requires 0 < n <= |s.queue| && |p.queue| == |s.queue| && p.queue[n - 1] == s.queue[n - 1]
    requires FirstCmd(p.cmds, s.queue[n - 1].url) == FirstCmd(s.cmds, s.queue[n - 1].url)
    requires multiset(s.cmds) == multiset(p.cmds) + multiset(ReapedCmds(s, poll, n - 1))
    ensures multiset(s.cmds) == multiset(ReapStep(p, n - 1, poll).cmds) + multiset(ReapedCmds(s, poll, n))
  {
    if Reapable(s, poll, n - 1) {
      ReapDropsSettled(s, poll, n, p);
    } else {
      ReapDropsIdle(s, poll, n, p);
    }
  }

  /** The idle case of ReapDropsStep: nothing is dropped and nothing recorded. */
  lemma ReapDropsIdle(s: Sched, poll: nat -> CmdState, n: nat, p: Sched)
    requires 0 < n <= |s.queue| && |p.queue| == |s.queue| && p.queue[n - 1] == s.queue[n - 1]
    requires FirstCmd(p.cmds, s.queue[n - 1].url) == FirstCmd(s.cmds, s.queue[n - 1].url)
    requires !Reapable(s, poll, n - 1)
    ensures ReapStep(p, n - 1, poll) == p && ReapedCmds(s, poll, n) == ReapedCmds(s, poll, n - 1)
  {
    assert !Reapable(p, poll, n - 1);
    ReapStepIdle(p, n - 1, poll);
  }

  /** The settling case of ReapDropsStep. */
  lemma ReapDropsSettled(s: Sched, poll: nat -> CmdState, n: nat, p: Sched)
    requires 0 < n <= |s.queue| && |p.queue| == |s.queue| && p.queue[n - 1] == s.queue[n - 1]
    requires FirstCmd(p.cmds, s.queue[n - 1].url) == FirstCmd(s.cmds, s.queue[n - 1].url)
    requires multiset(s.cmds) == multiset(p.cmds) + multiset(ReapedCmds(s, poll, n - 1))
    requires Reapable(s, poll, n - 1)
    ensures multiset(s.cmds) == multiset(ReapStep(p, n - 1, poll).cmds) + multiset(ReapedCmds(s, poll, n))
  {
    var c := FirstCmd(s.cmds, s.queue[n - 1].url).value;
    assert Reapable(p, poll, n - 1);
    ReapStepEffect(p, n - 1, poll);
    assert multiset(p.cmds) == multiset(ReapStep(p, n - 1, poll).cmds) + multiset{c};
    assert ReapedCmds(s, poll, n) == ReapedCmds(s, poll, n - 1) + [c];
    assert multiset(ReapedCmds(s, poll, n)) == multiset(ReapedCmds(s, poll, n - 1)) + multiset{c};
  }

  /** Every dropped command had finished and carried the URL of a Staging entry; at least one is dropped when some entry is reapable. */
  lemma {:induction false} ReapedCmdsFinished(s: Sched, poll: nat -> CmdState, n: nat)
    requires n <= |s.queue|
    ensures forall c :: c in ReapedCmds(s, poll, n) ==>
      c in s.cmds && poll(c.id).Finished?
      && exists k :: 0 <= k < n && s.queue[k].status == Staging && s.queue[k].url == c.url
    ensures (exists k :: 0 <= k < n && Reapable(s, poll, k)) ==> |ReapedCmds(s, poll, n)| > 0
  {
    if n > 0 {
      ReapedCmdsFinished(s, poll, n - 1);
      if Reapable(s, poll, n - 1) {
        assert s.queue[n - 1].url == FirstCmd(s.cmds, s.queue[n - 1].url).value.url;
      }
    }
  }

  /** Dropping one command keeps the creation order of those that remain. */
  lemma RemoveKeepsIdsOrdered(cmds: seq<Cmd>, j: nat, nextId: nat)
    requires j < |cmds| && IdsOrdered(cmds, nextId)
    ensures IdsOrdered(cmds[..j] + cmds[j + 1..], nextId)
  {
    var rest := cmds[..j] + cmds[j + 1..];
    forall k | 0 <= k < |rest|
      ensures IdOf(rest, k) == IdOf(cmds, if k < j then k else k + 1)
    {
    }
  }

  /** Pass 1 keeps the creation order of the commands that remain. */
  lemma {:induction false} ReapKeepsIdsOrdered(s: Sched, poll: nat -> CmdState, n: nat)
    requires n <= |s.queue| && IdsOrdered(s.cmds, s.nextId)
    ensures IdsOrdered(ReapUpTo(s, poll, n).cmds, s.nextId)
  {
    if n > 0 {
      ReapKeepsIdsOrdered(s, poll, n - 1);
      ReapStepIds(ReapUpTo(s, poll, n - 1), n - 1, poll, s.nextId);
    }
  }

  /** One step of pass 1 keeps the creation order. */
  lemma ReapStepIds(p: Sched, k: nat, poll: nat -> CmdState, nextId: nat)
    requires k < |p.queue| && IdsOrdered(p.cmds, nextId)
    ensures IdsOrdered(ReapStep(p, k, poll).cmds, nextId)
  {
    if Reapable(p, poll, k) {
      ReapStepSettledCmds(p, k, poll);
      RemoveKeepsIdsOrdered(p.cmds, CmdIndex(p.cmds, p.queue[k].url), nextId);
    } else {
      ReapStepIdle(p, k, poll);
    }
  }

  /** A step of pass 1 on a settled entry drops exactly the first command carrying its URL. */
  lemma ReapStepSettledCmds(p: Sched, k: nat, poll: nat -> CmdState)
    requires k < |p.queue| && Reapable(p, poll, k)
    ensures var j := CmdIndex(p.cmds, p.queue[k].url);
      0 <= j < |p.cmds| && ReapStep(p, k, poll).cmds == p.cmds[..j] + p.cmds[j + 1..]
  {
  }

  // ---------------------------------------------------------------------
  // Pass 2: admit

  /** Pass 2 on entry k: a Queue entry gets a new command, named by its URL, while fewer than `limit` run. */
  function AdmitStep(s: Sched, k: nat, limit: int): (r: Sched)
    requires k < |s.queue|
    ensures |r.queue| == |s.queue|
  {
    var e := s.queue[k];
    if e.status == Queue && |s.cmds| < limit then
      Sched(s.queue[k := Entry(e.url, Staging)], s.cmds + [Cmd(s.nextId, e.url)], s.nextId + 1)
    else s
  }

  /** Pass 2 over the first n entries. */
  function AdmitUpTo(s: Sched, limit: int, n: nat): (r: Sched)
    requires n <= |s.queue|
    ensures |r.queue| == |s.queue|
  {
    if n == 0 then s else AdmitStep(AdmitUpTo(s, limit, n - 1), n - 1, limit)
  }

  function Admit(s: Sched, limit: int): Sched
  {
    AdmitUpTo(s, limit, |s.queue|)
  }

  /** The number of Queue entries among the first n. */
  function QueuedBefore(q: seq<Entry>, n: nat): (c: nat)
    requires n <= |q|
    ensures c <= n
  {
    if n == 0 then 0 else QueuedBefore(q, n - 1) + (if q[n - 1].status == Queue then 1 else 0)
  }

  /** Command slots left under the limit. */
  function FreeSlots(s: Sched, limit: int): nat
  {
    if limit > |s.cmds| then limit - |s.cmds| else 0
  }

  function Min(a: nat, b: nat): nat { if a <= b then a else b }

  /** Entry k is one of the first FreeSlots Queue entries: pass 2 admits exactly these. */
  predicate Admitted(s: Sched, limit: int, k: nat)
    requires k < |s.queue|
  {
    s.queue[k].status == Queue && QueuedBefore(s.queue, k) < FreeSlots(s, limit)
  }

  /**
   * `r` is what pass 2 leaves after the first n entries of `s`: the earliest
   * Queue entries, as many as there were free slots, are Staging; commands are
   * only appended, the m-th admitted entry getting the m-th new command, named
   * by its URL and with a fresh id.
   */
  predicate AdmittedUpTo(s: Sched, limit: int, n: nat, r: Sched)
    requires n <= |s.queue|
  {
    AdmitEntriesUpTo(s, limit, n, r) && AdmitCountUpTo(s, limit, n, r) && AdmitCmdsUpTo(s, limit, n, r.cmds)
  }

  /** The entries: the admitted ones among the first n are Staging, all others unchanged. */
  predicate AdmitEntriesUpTo(s: Sched, limit: int, n: nat, r: Sched)
    requires n <= |s.queue|
  {
    && |r.queue| == |s.queue|
    && (forall k {:trigger r.queue[k]} :: 0 <= k < n ==>
         r.queue[k] == (if Admitted(s, limit, k) then Entry(s.queue[k].url, Staging) else s.queue[k]))
    && (forall k {:trigger r.queue[k]} :: n <= k < |s.queue| ==> r.queue[k] == s.queue[k])
  }

  /** The counts: one new command, and one fresh id, per admitted entry; the old commands kept in front. */
  predicate AdmitCountUpTo(s: Sched, limit: int, n: nat, r: Sched)
    requires n <= |s.queue|
  {
    && |r.cmds| == |s.cmds| + Min(QueuedBefore(s.queue, n), FreeSlots(s, limit))
    && r.cmds[..|s.cmds|] == s.cmds
    && r.nextId == s.nextId + (|r.cmds| - |s.cmds|)
  }

  /** The new commands: the m-th admitted entry owns the m-th new command. */
  predicate AdmitCmdsUpTo(s: Sched, limit: int, n: nat, cmds: seq<Cmd>)
    requires n <= |s.queue|
  {
    forall k {:trigger Admitted(s, limit, k)} :: 0 <= k < n && Admitted(s, limit, k) ==>
      && |s.cmds| + QueuedBefore(s.queue, k) < |cmds|
      && cmds[|s.cmds| + QueuedBefore(s.queue, k)] == Cmd(s.nextId + QueuedBefore(s.queue, k), s.queue[k].url)
  }

  /** After n entries, there is room for another command exactly when entry n would be within the free slots. */
  lemma AdmitRoom(s: Sched, limit: int, n: nat, p: Sched)
    requires n <= |s.queue| && AdmitCountUpTo(s, limit, n, p)
    ensures (|p.cmds| < limit) == (QueuedBefore(s.queue, n) < FreeSlots(s, limit))
  {
  }

  /** One admit step, on the entries. */
  lemma AdmitStepEntries(s: Sched, limit: int, n: nat, p: Sched)
    requires n < |s.queue| && AdmitEntriesUpTo(s, limit, n, p)
    requires (|p.cmds| < limit) == (QueuedBefore(s.queue, n) < FreeSlots(s, limit))
    ensures AdmitEntriesUpTo(s, limit, n + 1, AdmitStep(p, n, limit))
  {
    assert p.queue[n] == s.queue[n];
  }

  /** One admit step, on the counts. */
  lemma AdmitStepCount(s: Sched, limit: int, n: nat, p: Sched)
    requires n < |s.queue| && AdmitCountUpTo(s, limit, n, p)
    requires |p.queue| == |s.queue| && p.queue[n] == s.queue[n]
    ensures AdmitCountUpTo(s, limit, n + 1, AdmitStep(p, n, limit))
  {
    AdmitRoom(s, limit, n, p);
    var r := AdmitStep(p, n, limit);
    assert QueuedBefore(s.queue, n + 1) == QueuedBefore(s.queue, n) + (if s.queue[n].status == Queue then 1 else 0);
    if s.queue[n].status == Queue && |p.cmds| < limit {
      assert r.cmds[..|s.cmds|] == p.cmds[..|s.cmds|];
    }
  }

  /** One admit step, on the new commands. */
  lemma AdmitStepCmds(s: Sched, limit: int, n: nat, p: Sched)
    requires n < |s.queue| && AdmitCountUpTo(s, limit, n, p) && AdmitCmdsUpTo(s, limit, n, p.cmds)
    requires |p.queue| == |s.queue| && p.queue[n] == s.queue[n]
    ensures AdmitCmdsUpTo(s, limit, n + 1, AdmitStep(p, n, limit).cmds)
  {
    AdmitRoom(s, limit, n, p);
    var q := QueuedBefore(s.queue, n);
    if s.queue[n].status == Queue && |p.cmds| < limit {
      assert |p.cmds| == |s.cmds| + q && p.nextId == s.nextId + q;
      assert AdmitStep(p, n, limit).cmds == p.cmds + [Cmd(s.nextId + q, s.queue[n].url)];
      CmdsTake(s, limit, n, p.cmds);
    } else {
      CmdsSkip(s, limit, n, p.cmds);
    }
  }

  /** An admitted entry n owns the command appended after the earlier ones. */
  lemma CmdsTake(s: Sched, limit: int, n: nat, cmds: seq<Cmd>)
    requires n < |s.queue| && Admitted(s, limit, n) && AdmitCmdsUpTo(s, limit, n, cmds)
    requires |cmds| == |s.cmds| + QueuedBefore(s.queue, n)
    ensures AdmitCmdsUpTo(s, limit, n + 1, cmds + [Cmd(s.nextId + QueuedBefore(s.queue, n), s.queue[n].url)])
  {
    var x := Cmd(s.nextId + QueuedBefore(s.queue, n), s.queue[n].url);
    var c := cmds + [x];
    forall k | 0 <= k < n + 1 && Admitted(s, limit, k)
      ensures && |s.cmds| + QueuedBefore(s.queue, k) < |c|
              && c[|s.cmds| + QueuedBefore(s.queue, k)] == Cmd(s.nextId + QueuedBefore(s.queue, k), s.queue[k].url)
    {
      if k < n {
        var m := |s.cmds| + QueuedBefore(s.queue, k);
        assert c[m] == cmds[m];
      } else {
        assert c[|cmds|] == x;
      }
    }
  }

  /** An entry n that is not admitted leaves the description of the commands as it was. */
  lemma CmdsSkip(s: Sched, limit: int, n: nat, cmds: seq<Cmd>)
    requires n < |s.queue| && !Admitted(s, limit, n) && AdmitCmdsUpTo(s, limit, n, cmds)
    ensures AdmitCmdsUpTo(s, limit, n + 1, cmds)
  {
    forall k | 0 <= k < n + 1 && Admitted(s, limit, k)
      ensures && |s.cmds| + QueuedBefore(s.queue, k) < |cmds|
              && cmds[|s.cmds| + QueuedBefore(s.queue, k)] == Cmd(s.nextId + QueuedBefore(s.queue, k), s.queue[k].url)
    {
      assert k < n;
    }
  }

  /** One more admit step extends the description from n entries to n + 1. */
  lemma AdmitStepSpec(s: Sched, limit: int, n: nat, p: Sched)
    requires n < |s.queue| && AdmittedUpTo(s, limit, n, p)
    ensures AdmittedUpTo(s, limit, n + 1, AdmitStep(p, n, limit))
  {
    assert p.queue[n] == s.queue[n];
    AdmitRoom(s, limit, n, p);
    AdmitStepEntries(s, limit, n, p);
    AdmitStepCount(s, limit, n, p);
    AdmitStepCmds(s, limit, n, p);
  }

  /** Pass 2 over the first n entries is described by AdmittedUpTo. */
  lemma {:induction false} AdmitUpToSpec(s: Sched, limit: int, n: nat)
    requires n <= |s.queue|
    ensures AdmittedUpTo(s, limit, n, AdmitUpTo(s, limit, n))
  {
    if n == 0 {
      assert s.cmds[..|s.cmds|] == s.cmds;
    } else {
      AdmitUpToSpec(s, limit, n - 1);
      AdmitStepSpec(s, limit, n - 1, AdmitUpTo(s, limit, n - 1));
    }
  }

  /** QueuedBefore only grows, and it grows past every Queue entry. */
  lemma {:induction false} QueuedBeforeGrows(q: seq<Entry>, j: nat, k: nat)
    requires j < k <= |q|
    ensures QueuedBefore(q, j) + (if q[j].status == Queue then 1 else 0) <= QueuedBefore(q, k)
  {
    if k > j + 1 {
      QueuedBeforeGrows(q, j, k - 1);
    }
  }

  /** Admission order: an admitted entry implies every earlier Queue entry is admitted too. */
  lemma AdmittedEarliestFirst(s: Sched, limit: int, j: nat, k: nat)
    requires j < k < |s.queue|
    requires Admitted(s, limit, k) && s.queue[j].status == Queue
    ensures Admitted(s, limit, j)
  {
    QueuedBeforeGrows(s.queue, j, k);
  }

  /** Progress: with a free slot, the first Queue entry is admitted. */
  lemma {:induction false} FirstQueuedAdmitted(s: Sched, limit: int, m: nat)
    requires m < |s.queue| && s.queue[m].status == Queue && |s.cmds| < limit
    ensures exists k :: 0 <= k < |s.queue| && Admitted(s, limit, k)
  {
    if QueuedBefore(s.queue, m) == 0 {
      assert Admitted(s, limit, m);
    } else {
      var k :| 0 <= k < m && s.queue[k].status == Queue && QueuedBefore(s.queue, k) == 0 by {
        FirstQueued(s.queue, m);
      }
      assert Admitted(s, limit, k);
    }
  }

  /** Some Queue entry before position m has no Queue entry before it, when any does. */
  lemma {:induction false} FirstQueued(q: seq<Entry>, m: nat)
    requires m <= |q| && QueuedBefore(q, m) > 0
    ensures exists k :: 0 <= k < m && q[k].status == Queue && QueuedBefore(q, k) == 0
  {
    if QueuedBefore(q, m - 1) > 0 {
      FirstQueued(q, m - 1);
    } else {
      assert q[m - 1].status == Queue;
    }
  }

  /** Appending fresh ids keeps creation order. */
  lemma {:induction false} AdmitKeepsIdsOrdered(s: Sched, limit: int, n: nat)
    requires n <= |s.queue| && IdsOrdered(s.cmds, s.nextId)
    ensures IdsOrdered(AdmitUpTo(s, limit, n).cmds, AdmitUpTo(s, limit, n).nextId)
    ensures AdmitUpTo(s, limit, n).nextId >= s.nextId
  {
    if n > 0 {
      AdmitKeepsIdsOrdered(s, limit, n - 1);
      var p := AdmitUpTo(s, limit, n - 1);
      if p.queue[n - 1].status == Queue && |p.cmds| < limit {
        AppendKeepsIdsOrdered(p.cmds, Cmd(p.nextId, p.queue[n - 1].url), p.nextId);
      }
    }
  }

  /** Appending a command with the next fresh id keeps creation order, one id further on. */
  lemma AppendKeepsIdsOrdered(cmds: seq<Cmd>, c: Cmd, nextId: nat)
    requires IdsOrdered(cmds, nextId) && c.id == nextId
    ensures IdsOrdered(cmds + [c], nextId + 1)
  {
    var all := cmds + [c];
    forall k | 0 <= k < |all|
      ensures IdOf(all, k) == if k < |cmds| then IdOf(cmds, k) else nextId
    {
    }
  }

  // ---------------------------------------------------------------------
  // A whole tick

  /** One scheduling tick: reap first, then admit into the slots that leaves. */
  function Tick(s: Sched, poll: nat -> CmdState, limit: int): Sched
  {
    Admit(Reap(s, poll), limit)
  }

  /** The order statuses move in: Queue, then Staging, then Done or Fail, never back. */
  predicate Reaches(a: StgStatus, b: StgStatus)
  {
    || a == b
    || (a == Queue && (b == Staging || b == Done || b == Fail))
    || (a == Staging && (b == Done || b == Fail))
  }

  /** Two lists with Queue entries at the same positions count them alike. */
  lemma {:induction false} QueuedBeforeSame(q1: seq<Entry>, q2: seq<Entry>, n: nat)
    requires n <= |q1| && n <= |q2|
    requires forall k :: 0 <= k < n ==> (q1[k].status == Queue) == (q2[k].status == Queue)
    ensures QueuedBefore(q1, n) == QueuedBefore(q2, n)
  {
    if n > 0 {
      QueuedBeforeSame(q1, q2, n - 1);
    }
  }

  /** What pass 1 leaves behind: the entries settled against the original commands, the reaped commands gone. */
  lemma ReapSpec(s: Sched, poll: nat -> CmdState)
    requires UniqueUrls(s.queue)
    ensures |Reap(s, poll).queue| == |s.queue|
    ensures forall k :: 0 <= k < |s.queue| ==>
      Reap(s, poll).queue[k] == Entry(s.queue[k].url, ReapVerdict(s, poll, k))
    ensures |Reap(s, poll).cmds| == |s.cmds| - |ReapedCmds(s, poll, |s.queue|)|
    ensures QueuedBefore(Reap(s, poll).queue, |s.queue|) == QueuedBefore(s.queue, |s.queue|)
    ensures forall k :: 0 <= k < |s.queue| ==>
      QueuedBefore(Reap(s, poll).queue, k) == QueuedBefore(s.queue, k)
  {
    var n := |s.queue|;
    ReapUpToEntries(s, poll, n);
    ReapUpToDrops(s, poll, n);
    var r := Reap(s, poll);
    assert |multiset(s.cmds)| == |multiset(r.cmds)| + |multiset(ReapedCmds(s, poll, n))|;
    forall k | 0 <= k <= n ensures QueuedBefore(r.queue, k) == QueuedBefore(s.queue, k) {
      QueuedBeforeSame(r.queue, s.queue, k);
    }
  }

  /**
   * A tick never adds, drops or reorders entries; each entry ends Staging if
   * pass 2 admitted it and otherwise as pass 1 settled it, so statuses only move
   * forward and Done and Fail entries are never touched.
   */
  lemma TickEntries(s: Sched, poll: nat -> CmdState, limit: int)
    requires UniqueUrls(s.queue)
    ensures |Tick(s, poll, limit).queue| == |s.queue|
    ensures forall k :: 0 <= k < |s.queue| ==>
      Tick(s, poll, limit).queue[k] == Entry(s.queue[k].url,
        if s.queue[k].status == Queue && QueuedBefore(s.queue, k) < FreeSlots(Reap(s, poll), limit)
        then Staging else ReapVerdict(s, poll, k))
    ensures forall k :: 0 <= k < |s.queue| ==>
      && Reaches(s.queue[k].status, Tick(s, poll, limit).queue[k].status)
      && (s.queue[k].status == Done || s.queue[k].status == Fail ==> Tick(s, poll, limit).queue[k] == s.queue[k])
    ensures UniqueUrls(Tick(s, poll, limit).queue)
  {
    var r := Reap(s, poll);
    ReapSpec(s, poll);
    AdmitUpToSpec(r, limit, |r.queue|);
    var t := Tick(s, poll, limit);
    assert forall k :: 0 <= k < |s.queue| ==> t.queue[k].url == s.queue[k].url;
  }

  /** The running count after a tick is at most the larger of the count before and the limit. */
  lemma TickBound(s: Sched, poll: nat -> CmdState, limit: int)
    requires UniqueUrls(s.queue)
    ensures |Tick(s, poll, limit).cmds| <= if |s.cmds| <= limit then limit else |s.cmds|
    ensures |Reap(s, poll).cmds| <= |Tick(s, poll, limit).cmds|
    ensures Tick(s, poll, limit).cmds[..|Reap(s, poll).cmds|] == Reap(s, poll).cmds
  {
    var r := Reap(s, poll);
    ReapSpec(s, poll);
    AdmitUpToSpec(r, limit, |r.queue|);
  }

  /** Reaping comes first: a slot freed in pass 1 is filled in pass 2 of the same tick. */
  lemma TickReusesFreedSlot(s: Sched, poll: nat -> CmdState, limit: int, k: nat, m: nat)
    requires UniqueUrls(s.queue) && |s.cmds| <= limit
    requires k < |s.queue| && Reapable(s, poll, k)
    requires m < |s.queue| && s.queue[m].status == Queue
    ensures exists j :: 0 <= j < |s.queue| && s.queue[j].status == Queue && Tick(s, poll, limit).queue[j].status == Staging
  {
    var n := |s.queue|;
    ReapedCmdsFinished(s, poll, n);
    assert 0 <= k < n && Reapable(s, poll, k);
    ReapSpec(s, poll);
    var r := Reap(s, poll);
    assert |r.cmds| < limit;
    assert r.queue[m].status == Queue;
    FirstQueuedAdmitted(r, limit, m);
    var j :| 0 <= j < |r.queue| && Admitted(r, limit, j);
    AdmitUpToSpec(r, limit, n);
    assert Tick(s, poll, limit).queue[j].status == Staging;
    assert r.queue[j].status == Queue;
    assert !Reapable(s, poll, j);
  }

  /** A command whose URL has no Staging entry (its entry was dequeued) is never reaped: it keeps its slot. */
  lemma TickKeepsOrphan(s: Sched, poll: nat -> CmdState, limit: int, c: Cmd)
    requires UniqueUrls(s.queue) && c in s.cmds
    requires forall k :: 0 <= k < |s.queue| && s.queue[k].status == Staging ==> s.queue[k].url != c.url
    ensures c in Tick(s, poll, limit).cmds
  {
    var n := |s.queue|;
    ReapedCmdsFinished(s, poll, n);
    ReapUpToDrops(s, poll, n);
    assert c !in ReapedCmds(s, poll, n);
    var r := Reap(s, poll);
    assert multiset(s.cmds)[c] == multiset(r.cmds)[c] + multiset(ReapedCmds(s, poll, n))[c];
    assert c in multiset(r.cmds);
    TickBound(s, poll, limit);
    var t := Tick(s, poll, limit);
    assert c in t.cmds[..|r.cmds|];
  }

  /** A tick keeps command ids in creation order and fresh. */
  lemma TickKeepsIdsOrdered(s: Sched, poll: nat -> CmdState, limit: int)
    requires IdsOrdered(s.cmds, s.nextId)
    ensures IdsOrdered(Tick(s, poll, limit).cmds, Tick(s, poll, limit).nextId)
  {
    ReapKeepsIdsOrdered(s, poll, |s.queue|);
    AdmitKeepsIdsOrdered(Reap(s, poll), limit, |s.queue|);
  }

  // ---------------------------------------------------------------------
  // Bounded concurrency

  /** Every Staging entry has a command carrying its URL. */
  predicate StagingCovered(s: Sched)
  {
    forall k :: 0 <= k < |s.queue| && s.queue[k].status == Staging ==> FirstCmd(s.cmds, s.queue[k].url).Some?
  }

  /** The number of Staging entries. */
  function StagingCount(q: seq<Entry>): (c: nat)
    ensures c <= |q|
  {
    if |q| == 0 then 0 else StagingCount(q[..|q| - 1]) + (if q[|q| - 1].status == Staging then 1 else 0)
  }

  /** With unique URLs, covered Staging entries are at most as many as the commands covering them. */
  lemma {:induction false} StagingAtMostCmds(q: seq<Entry>, cmds: seq<Cmd>)
    requires UniqueUrls(q) && StagingCovered(Sched(q, cmds, 0))
    ensures StagingCount(q) <= |cmds|
    decreases |q|
  {
    if |q| > 0 {
      var n := |q| - 1;
      var init := q[..n];
      assert forall k :: 0 <= k < n ==> init[k] == q[k];
      if q[n].status == Staging {
        var u := q[n].url;
        var j := CmdIndex(cmds, u);
        assert FirstCmd(cmds, u).Some?;
        var rest := cmds[..j] + cmds[j + 1..];
        forall k | 0 <= k < n && init[k].status == Staging ensures FirstCmd(rest, init[k].url).Some? {
          assert q[k].url != u;
          RemoveKeepsOtherFirst(cmds, j, init[k].url);
        }
        StagingAtMostCmds(init, rest);
      } else {
        StagingAtMostCmds(init, cmds);
      }
    }
  }

  /** Pass 1 keeps the command of every entry it does not settle. */
  lemma {:induction false} ReapKeepsUnsettled(s: Sched, poll: nat -> CmdState, n: nat, k: nat)
    requires UniqueUrls(s.queue) && n <= |s.queue| && k < |s.queue| && !Reapable(s, poll, k)
    ensures FirstCmd(ReapUpTo(s, poll, n).cmds, s.queue[k].url) == FirstCmd(s.cmds, s.queue[k].url)
  {
    if n > 0 {
      ReapKeepsUnsettled(s, poll, n - 1, k);
      var p := ReapUpTo(s, poll, n - 1);
      ReapUpToUntouched(s, poll, n - 1, n - 1);
      ReapStepKeepsUnsettled(s, p, n - 1, poll, k);
    }
  }

  /**
   * A step of pass 1 over a state p that still holds s's entry j and s's first
   * command for an unsettled entry k keeps that command.
   */
  lemma ReapStepKeepsUnsettled(s: Sched, p: Sched, j: nat, poll: nat -> CmdState, k: nat)
    requires UniqueUrls(s.queue) && j < |p.queue| == |s.queue| && k < |s.queue| && !Reapable(s, poll, k)
    requires p.queue[j] == s.queue[j] && FirstCmd(p.cmds, s.queue[k].url) == FirstCmd(s.cmds, s.queue[k].url)
    ensures FirstCmd(ReapStep(p, j, poll).cmds, s.queue[k].url) == FirstCmd(s.cmds, s.queue[k].url)
  {
    ReapStepKeepsFirst(p, j, poll, s.queue[k].url);
  }

  /** A step of pass 1 keeps the first command named u, unless it settles u's own entry. */
  lemma ReapStepKeepsFirst(p: Sched, j: nat, poll: nat -> CmdState, u: string)
    requires j < |p.queue| && (p.queue[j].url == u ==> !Reapable(p, poll, j))
    ensures FirstCmd(ReapStep(p, j, poll).cmds, u) == FirstCmd(p.cmds, u)
  {
    if p.queue[j].url != u {
      ReapStepKeepsOther(p, j, poll, u);
    } else {
      ReapStepIdle(p, j, poll);
    }
  }

  /** A step of pass 1 on another URL's entry keeps the first command named u. */
  lemma ReapStepKeepsOther(p: Sched, j: nat, poll: nat -> CmdState, u: string)
    requires j < |p.queue| && p.queue[j].url != u
    ensures FirstCmd(ReapStep(p, j, poll).cmds, u) == FirstCmd(p.cmds, u)
  {
    var e := p.queue[j];
    var i := CmdIndex(p.cmds, e.url);
    if e.status == Staging && i >= 0 && poll(p.cmds[i].id).Finished? {
      RemoveKeepsOtherFirst(p.cmds, i, u);
    }
  }

  /** A step of pass 1 on an entry that is not settled changes nothing. */
  lemma ReapStepIdle(p: Sched, j: nat, poll: nat -> CmdState)
    requires j < |p.queue| && !Reapable(p, poll, j)
    ensures ReapStep(p, j, poll) == p
  {
  }

  /** Pass 1 leaves an entry it has not reached untouched. */
  lemma {:induction false} ReapUpToUntouched(s: Sched, poll: nat -> CmdState, n: nat, j: nat)
    requires n <= j < |s.queue|
    ensures ReapUpTo(s, poll, n).queue[j] == s.queue[j]
  {
    if n > 0 {
      ReapUpToUntouched(s, poll, n - 1, j);
    }
  }

  /** Appending commands keeps an existing first command. */
  lemma PrefixKeepsFirst(cmds: seq<Cmd>, all: seq<Cmd>, u: string)
    requires |cmds| <= |all| && all[..|cmds|] == cmds && FirstCmd(cmds, u).Some?
    ensures FirstCmd(all, u) == FirstCmd(cmds, u)
  {
    var j := CmdIndex(cmds, u);
    assert all[j] == cmds[j];
    assert forall i :: 0 <= i < j ==> all[i] == cmds[i];
    assert CmdIndex(all, u) == j;
  }

  /** A tick keeps every Staging entry covered by a command. */
  lemma TickKeepsCovered(s: Sched, poll: nat -> CmdState, limit: int)
    requires UniqueUrls(s.queue) && StagingCovered(s)
    ensures StagingCovered(Tick(s, poll, limit))
  {
    var r := Reap(s, poll);
    var t := Tick(s, poll, limit);
    TickEntries(s, poll, limit);
    forall k | 0 <= k < |t.queue| && t.queue[k].status == Staging
      ensures FirstCmd(t.cmds, t.queue[k].url).Some?
    {
      assert t.queue[k].url == s.queue[k].url;
      if Admitted(r, limit, k) {
        CoveredAdmitted(s, poll, limit, k);
      } else {
        CoveredUnsettled(s, poll, limit, k);
      }
    }
  }

  /** An entry admitted in pass 2 owns one of the commands appended. */
  lemma CoveredAdmitted(s: Sched, poll: nat -> CmdState, limit: int, k: nat)
    requires UniqueUrls(s.queue) && k < |s.queue| && Admitted(Reap(s, poll), limit, k)
    ensures FirstCmd(Tick(s, poll, limit).cmds, s.queue[k].url).Some?
  {
    var r := Reap(s, poll);
    var t := Tick(s, poll, limit);
    var u := s.queue[k].url;
    ReapSpec(s, poll);
    AdmitUpToSpec(r, limit, |r.queue|);
    var c := t.cmds[|r.cmds| + QueuedBefore(r.queue, k)];
    assert c.url == u && c in t.cmds;
    if FirstCmd(t.cmds, u).None? {
      assert false;
    }
  }

  /** An entry still Staging after a tick and not admitted was Staging and unsettled: its command survived pass 1 and stays ahead of the new ones. */
  lemma CoveredUnsettled(s: Sched, poll: nat -> CmdState, limit: int, k: nat)
    requires UniqueUrls(s.queue) && StagingCovered(s) && k < |s.queue| && !Admitted(Reap(s, poll), limit, k)
    requires k < |Tick(s, poll, limit).queue| && Tick(s, poll, limit).queue[k].status == Staging
    ensures FirstCmd(Tick(s, poll, limit).cmds, s.queue[k].url).Some?
  {
    UnadmittedWasUnsettled(s, poll, limit, k);
    ReapKeepsUnsettled(s, poll, |s.queue|, k);
    TickBound(s, poll, limit);
    PrefixKeepsFirst(Reap(s, poll).cmds, Tick(s, poll, limit).cmds, s.queue[k].url);
  }

  /** An entry Staging after a tick that pass 2 did not admit was Staging before it and not settled by pass 1. */
  lemma UnadmittedWasUnsettled(s: Sched, poll: nat -> CmdState, limit: int, k: nat)
    requires UniqueUrls(s.queue) && k < |s.queue| && !Admitted(Reap(s, poll), limit, k)
    requires k < |Tick(s, poll, limit).queue| && Tick(s, poll, limit).queue[k].status == Staging
    ensures s.queue[k].status == Staging && !Reapable(s, poll, k)
  {
    ReapSpec(s, poll);
    TickEntries(s, poll, limit);
    assert Reap(s, poll).queue[k].status == Staging;
    assert ReapVerdict(s, poll, k) == Staging;
  }

  /** The scheduler invariant: one entry per URL, commands in creation order, a command for every Staging entry. */
  predicate SchedValid(s: Sched)
  {
    UniqueUrls(s.queue) && IdsOrdered(s.cmds, s.nextId) && StagingCovered(s)
  }

  /** Enqueueing adds a Queue entry, so coverage is kept. */
  lemma EnqueueKeepsCovered(s: Sched, u: string)
    requires StagingCovered(s)
    ensures StagingCovered(Sched(Enqueued(s.queue, u), s.cmds, s.nextId))
  {
    var q := Enqueued(s.queue, u);
    assert forall k :: 0 <= k < |s.queue| ==> q[k] == s.queue[k];
  }

  /** Dequeueing only removes an entry, so coverage is kept. */
  lemma DequeueKeepsCovered(s: Sched, u: string)
    requires StagingCovered(s)
    ensures StagingCovered(Sched(Dequeued(s.queue, u), s.cmds, s.nextId))
  {
    var i := EntryIndex(s.queue, u);
    if i >= 0 {
      var q := s.queue[..i] + s.queue[i + 1..];
      assert forall k :: 0 <= k < |q| ==> q[k] == if k < i then s.queue[k] else s.queue[k + 1];
    }
  }

  /** Dequeueing keeps the scheduler valid and leaves the URL untracked; it removes an entry exactly when the URL was tracked. */
  lemma DequeueKeepsValid(s: Sched, u: string)
    requires SchedValid(s)
    ensures SchedValid(Sched(Dequeued(s.queue, u), s.cmds, s.nextId))
    ensures StatusOf(Dequeued(s.queue, u), u) == Absent
    ensures (EntryIndex(s.queue, u) >= 0) == (StatusOf(s.queue, u) != Absent)
  {
    DequeueMakesAbsent(s.queue, u, u);
    DequeueKeepsCovered(s, u);
  }

  /** A queue operation a dataset source performs while it is processed. */
  datatype QueueOp = Enq(url: string) | Deq(url: string)

  /** One queue operation: EnqueueUrl or DequeueUrl. Neither touches the commands. */
  function ApplyOp(s: Sched, op: QueueOp): Sched
  {
    match op
    case Enq(u) => Sched(Enqueued(s.queue, u), s.cmds, s.nextId)
    case Deq(u) => Sched(Dequeued(s.queue, u), s.cmds, s.nextId)
  }

  /**
   * A queue operation keeps the scheduler valid. Afterwards its URL is Queue
   * if an enqueue found it untracked, keeps its status on a repeated enqueue,
   * and is Absent after a dequeue; every other URL keeps its status.
   */
  lemma ApplyOpEffect(s: Sched, op: QueueOp, w: string)
    requires SchedValid(s)
    ensures SchedValid(ApplyOp(s, op))
    ensures ApplyOp(s, op).cmds == s.cmds && ApplyOp(s, op).nextId == s.nextId
    ensures StatusOf(ApplyOp(s, op).queue, op.url) ==
      if op.Deq? then Absent else if StatusOf(s.queue, op.url) == Absent then Queue else StatusOf(s.queue, op.url)
    ensures w != op.url ==> StatusOf(ApplyOp(s, op).queue, w) == StatusOf(s.queue, w)
  {
    match op
    case Enq(u) =>
      EnqueueTracks(s.queue, u, w);
      EnqueueKeepsCovered(s, u);
    case Deq(u) =>
      DequeueMakesAbsent(s.queue, u, w);
      DequeueKeepsCovered(s, u);
  }

  /** The queue operations in order, from the first to the last. */
  function ApplyOps(s: Sched, ops: seq<QueueOp>): Sched
  {
    if |ops| == 0 then s else ApplyOp(ApplyOps(s, ops[..|ops| - 1]), ops[|ops| - 1])
  }

  /** Any sequence of queue operations keeps the scheduler valid and leaves the commands alone. */
  lemma {:induction false} ApplyOpsKeepsValid(s: Sched, ops: seq<QueueOp>)
    requires SchedValid(s)
    ensures SchedValid(ApplyOps(s, ops))
    ensures ApplyOps(s, ops).cmds == s.cmds && ApplyOps(s, ops).nextId == s.nextId
  {
    if |ops| > 0 {
      var init := ApplyOps(s, ops[..|ops| - 1]);
      ApplyOpsKeepsValid(s, ops[..|ops| - 1]);
      ApplyOpEffect(init, ops[|ops| - 1], ops[|ops| - 1].url);
    }
  }

  /**
   * What a tick preserves: unique URLs, commands in creation order, a command
   * for every Staging entry; and at most as many Staging entries as commands,
   * which number at most the larger of the count before and the limit.
   */
  lemma TickPreserves(s: Sched, poll: nat -> CmdState, limit: int)
    requires UniqueUrls(s.queue) && IdsOrdered(s.cmds, s.nextId) && StagingCovered(s)
    ensures var t := Tick(s, poll, limit);
      && UniqueUrls(t.queue) && IdsOrdered(t.cmds, t.nextId) && StagingCovered(t)
      && StagingCount(t.queue) <= |t.cmds| <= (if |s.cmds| <= limit then limit else |s.cmds|)
  {
    TickEntries(s, poll, limit);
    TickBound(s, poll, limit);
    TickKeepsIdsOrdered(s, poll, limit);
    TickKeepsCovered(s, poll, limit);
    var t := Tick(s, poll, limit);
    StagingAtMostCmds(t.queue, t.cmds);
  }

  /** n ticks in a row, the i-th polling with polls(i). */
  function TickN(s: Sched, polls: nat -> nat -> CmdState, limit: int, n: nat): Sched
  {
    if n == 0 then s else Tick(TickN(s, polls, limit, n - 1), polls(n - 1), limit)
  }

  /**
   * Over any number of ticks: URLs stay unique and in place, the running count
   * stays within the limit, and every entry's status only moves along
   * Queue, Staging, Done or Fail.
   */
  lemma TickNInvariants(s: Sched, polls: nat -> nat -> CmdState, limit: int, n: nat)
    requires UniqueUrls(s.queue) && IdsOrdered(s.cmds, s.nextId) && |s.cmds| <= limit
    requires StagingCovered(s)
    ensures UniqueUrls(TickN(s, polls, limit, n).queue)
    ensures StagingCovered(TickN(s, polls, limit, n))
    ensures StagingCount(TickN(s, polls, limit, n).queue) <= |TickN(s, polls, limit, n).cmds| <= limit
    ensures IdsOrdered(TickN(s, polls, limit, n).cmds, TickN(s, polls, limit, n).nextId)
    ensures |TickN(s, polls, limit, n).cmds| <= limit
    ensures |TickN(s, polls, limit, n).queue| == |s.queue|
    ensures forall k :: 0 <= k < |s.queue| ==>
      && TickN(s, polls, limit, n).queue[k].url == s.queue[k].url
      && Reaches(s.queue[k].status, TickN(s, polls, limit, n).queue[k].status)
  {
    TickNKeeps(s, polls, limit, n);
    var t := TickN(s, polls, limit, n);
    StagingAtMostCmds(t.queue, t.cmds);
  }

  /** What every tick keeps, with `t` the state reached from `s`. */
  predicate TickNInv(s: Sched, limit: int, t: Sched)
  {
    && UniqueUrls(t.queue) && StagingCovered(t) && IdsOrdered(t.cmds, t.nextId)
    && |t.cmds| <= limit && |t.queue| == |s.queue|
    && forall k {:trigger t.queue[k]} :: 0 <= k < |s.queue| ==>
         t.queue[k].url == s.queue[k].url && Reaches(s.queue[k].status, t.queue[k].status)
  }

  /** One more tick keeps TickNInv. */
  lemma TickStepInv(s: Sched, p: Sched, poll: nat -> CmdState, limit: int)
    requires TickNInv(s, limit, p)
    ensures TickNInv(s, limit, Tick(p, poll, limit))
  {
    TickEntries(p, poll, limit);
    TickBound(p, poll, limit);
    TickKeepsIdsOrdered(p, poll, limit);
    TickKeepsCovered(p, poll, limit);
    var t := Tick(p, poll, limit);
    forall k | 0 <= k < |s.queue|
      ensures t.queue[k].url == s.queue[k].url && Reaches(s.queue[k].status, t.queue[k].status)
    {
      assert p.queue[k].url == s.queue[k].url && Reaches(s.queue[k].status, p.queue[k].status);
      assert t.queue[k].url == p.queue[k].url && Reaches(p.queue[k].status, t.queue[k].status);
    }
  }

  lemma {:induction false} TickNKeeps(s: Sched, polls: nat -> nat -> CmdState, limit: int, n: nat)
    requires UniqueUrls(s.queue) && IdsOrdered(s.cmds, s.nextId) && |s.cmds| <= limit
    requires StagingCovered(s)
    ensures TickNInv(s, limit, TickN(s, polls, limit, n))
  {
    if n > 0 {
      TickNKeeps(s, polls, limit, n - 1);
      TickStepInv(s, TickN(s, polls, limit, n - 1), polls(n - 1), limit);
    }
  }
}
