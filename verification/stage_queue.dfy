/**
 * The staging queue of the data sets manager: an ordered list of (URL, status)
 * entries, looked up by URL, plus the list of running staging commands, looked
 * up by command name (the URL being staged).
 */
module StageQueue {

  import opened Wrappers

  /** Status of a URL; an untracked URL reads as Absent. */
  datatype StgStatus = Absent | Queue | Staging | Done | Fail

  /** The statuses an entry of the queue can actually hold. */
  type EntryStatus = s: StgStatus | s != Absent witness Queue

  /** One tracked URL. A new entry starts in Queue. */
  datatype Entry = Entry(url: string, status: EntryStatus)

  /**
   * A running staging command, named by the URL it stages. The id stands for
   * the identity of the thread object: two commands may share a name.
   */
  datatype Cmd = Cmd(id: nat, url: string)

  /** What polling a command's thread reports. Only Finished threads are reaped. */
  datatype CmdState = Running | Finished(ok: bool) | Other

  /** The scheduler's state: queue, running commands, next fresh command id. */
  datatype Sched = Sched(queue: seq<Entry>, cmds: seq<Cmd>, nextId: nat)

  /** At most one entry per URL. */
  predicate UniqueUrls(q: seq<Entry>)
  {
    forall i, j :: 0 <= i < j < |q| ==> q[i].url != q[j].url
  }

  /** The id of the i-th command; the quantifiers of IdsOrdered fire on this term only. */
  function IdOf(cmds: seq<Cmd>, i: nat): nat
    requires i < |cmds|
  {
    cmds[i].id
  }

  /** Commands are ordered by creation and every id is below the next fresh one. */
  predicate IdsOrdered(cmds: seq<Cmd>, nextId: nat)
  {
    && (forall i, j {:trigger IdOf(cmds, i), IdOf(cmds, j)} :: 0 <= i < j < |cmds| ==> IdOf(cmds, i) < IdOf(cmds, j))
    && (forall i {:trigger IdOf(cmds, i)} :: 0 <= i < |cmds| ==> IdOf(cmds, i) < nextId)
  }

  /** Index of the first entry for `u`, or -1 (the list's FindObject). */
  function EntryIndex(q: seq<Entry>, u: string): (r: int)
    ensures -1 <= r < |q|
    ensures r >= 0 ==> q[r].url == u && forall k :: 0 <= k < r ==> q[k].url != u
    ensures r == -1 <==> forall k :: 0 <= k < |q| ==> q[k].url != u
  {
    if |q| == 0 then -1
    else if q[0].url == u then 0
    else
      var r := EntryIndex(q[1..], u);
      if r < 0 then -1 else r + 1
  }

  /** GetStageStatus: Absent for an untracked URL, else the entry's status. */
  function StatusOf(q: seq<Entry>, u: string): (r: StgStatus)
    ensures r == Absent <==> forall k :: 0 <= k < |q| ==> q[k].url != u
    ensures r != Absent ==> exists k :: 0 <= k < |q| && q[k] == Entry(u, r)
  {
    var i := EntryIndex(q, u);
    if i < 0 then Absent else q[i].status
  }

  /** EnqueueUrl: append a new Queue entry only if the URL is not tracked yet. */
  function Enqueued(q: seq<Entry>, u: string): (r: seq<Entry>)
    ensures StatusOf(q, u) == Absent ==> r == q + [Entry(u, Queue)]
    ensures StatusOf(q, u) != Absent ==> r == q
    ensures UniqueUrls(q) ==> UniqueUrls(r)
  {
    if EntryIndex(q, u) < 0 then q + [Entry(u, Queue)] else q
  }

  /** DequeueUrl: remove the (first) entry for the URL, keeping the others in order. */
  function Dequeued(q: seq<Entry>, u: string): (r: seq<Entry>)
    ensures StatusOf(q, u) == Absent ==> r == q
    ensures StatusOf(q, u) != Absent ==> |r| == |q| - 1
    ensures UniqueUrls(q) ==> UniqueUrls(r)
  {
    var i := EntryIndex(q, u);
    if i < 0 then q else q[..i] + q[i + 1..]
  }

  /** Index of the first command named `u`, or -1 (FindObject by name). */
  function CmdIndex(cmds: seq<Cmd>, u: string): (r: int)
    ensures -1 <= r < |cmds|
    ensures r >= 0 ==> cmds[r].url == u && forall k :: 0 <= k < r ==> cmds[k].url != u
    ensures r == -1 <==> forall k :: 0 <= k < |cmds| ==> cmds[k].url != u
  {
    if |cmds| == 0 then -1
    else if cmds[0].url == u then 0
    else
      var r := CmdIndex(cmds[1..], u);
      if r < 0 then -1 else r + 1
  }

  /** The first command named `u`, if any. */
  function FirstCmd(cmds: seq<Cmd>, u: string): (r: Option<Cmd>)
    ensures r.Some? ==> r.value in cmds && r.value.url == u
    ensures r.None? <==> forall k :: 0 <= k < |cmds| ==> cmds[k].url != u
  {
    var j := CmdIndex(cmds, u);
    if j < 0 then None else Some(cmds[j])
  }

  // ---------------------------------------------------------------------
  // Properties of the queue operations

  /** Removing entry i of a list with unique URLs leaves every other URL's status alone. */
  lemma StatusAfterRemove(q: seq<Entry>, i: nat, w: string)
    requires UniqueUrls(q) && i < |q|
    ensures StatusOf(q[..i] + q[i + 1..], w) == if w == q[i].url then Absent else StatusOf(q, w)
  {
    var r := q[..i] + q[i + 1..];
    forall k | 0 <= k < |r| ensures r[k] == q[if k < i then k else k + 1] {
    }
    StatusAfterRemoveAt(q, r, i, w);
  }

  /** The same, for any `r` that lists q without its entry i. */
  lemma StatusAfterRemoveAt(q: seq<Entry>, r: seq<Entry>, i: nat, w: string)
    requires UniqueUrls(q) && i < |q| && |r| == |q| - 1
    requires forall k :: 0 <= k < |r| ==> r[k] == q[if k < i then k else k + 1]
    ensures StatusOf(r, w) == if w == q[i].url then Absent else StatusOf(q, w)
  {
    if w == q[i].url {
      forall k | 0 <= k < |r| ensures r[k].url != w {
        var kq := if k < i then k else k + 1;
        assert r[k] == q[kq] && kq != i;
      }
      assert StatusOf(r, w) == Absent;
    } else if StatusOf(q, w) == Absent {
      forall k | 0 <= k < |r| ensures r[k].url != w {
        var kq := if k < i then k else k + 1;
        assert r[k] == q[kq];
      }
      assert StatusOf(r, w) == Absent;
    } else {
      var jq := EntryIndex(q, w);
      var k' := if jq < i then jq else jq - 1;
      assert r[k'] == q[jq];
      var j := EntryIndex(r, w);
      var jr := if j < i then j else j + 1;
      assert r[j] == q[jr];
      assert jr == jq;
      assert StatusOf(r, w) == r[j].status;
    }
  }

  /** Dequeue makes the URL Absent, leaves every other URL's status, and removes exactly one entry. */
  lemma DequeueMakesAbsent(q: seq<Entry>, u: string, w: string)
    requires UniqueUrls(q)
    ensures StatusOf(Dequeued(q, u), u) == Absent
    ensures w != u ==> StatusOf(Dequeued(q, u), w) == StatusOf(q, w)
  {
    DequeueStatus(q, u, u);
    DequeueStatus(q, u, w);
  }

  /** The status of any URL after a dequeue of u. */
  lemma DequeueStatus(q: seq<Entry>, u: string, w: string)
    requires UniqueUrls(q)
    ensures StatusOf(Dequeued(q, u), w) == if w == u then Absent else StatusOf(q, w)
  {
    var i := EntryIndex(q, u);
    if i >= 0 {
      assert Dequeued(q, u) == q[..i] + q[i + 1..];
      StatusAfterRemove(q, i, w);
    }
  }

  /** Dequeueing a tracked URL removes an entry of that URL and keeps the other entries in their order. */
  lemma DequeueKeepsOrder(q: seq<Entry>, u: string)
    requires StatusOf(q, u) != Absent
    ensures exists i :: 0 <= i < |q| && q[i].url == u && Dequeued(q, u) == q[..i] + q[i + 1..]
  {
    var i := EntryIndex(q, u);
    assert q[i].url == u && Dequeued(q, u) == q[..i] + q[i + 1..];
  }

  /** Enqueue tracks the URL (Queue if it was new, else its old status) and touches no other URL. */
  lemma {:induction false} EnqueueTracks(q: seq<Entry>, u: string, w: string)
    ensures StatusOf(Enqueued(q, u), u) == if StatusOf(q, u) == Absent then Queue else StatusOf(q, u)
    ensures w != u ==> StatusOf(Enqueued(q, u), w) == StatusOf(q, w)
  {
    var r := Enqueued(q, u);
    if StatusOf(q, u) == Absent {
      assert r[|q|] == Entry(u, Queue);
      assert EntryIndex(r, u) == |q|;
      if w != u {
        assert forall k :: 0 <= k < |q| ==> r[k] == q[k];
        assert EntryIndex(r, w) == EntryIndex(q, w);
      }
    }
  }

  /** Dedup: enqueueing the same URL a second time changes nothing. */
  lemma {:induction false} EnqueueIdempotent(q: seq<Entry>, u: string)
    ensures Enqueued(Enqueued(q, u), u) == Enqueued(q, u)
  {
    EnqueueTracks(q, u, u);
  }

  /** Dequeue undoes the enqueue of an untracked URL. */
  lemma {:induction false} DequeueUndoesEnqueue(q: seq<Entry>, u: string)
    requires StatusOf(q, u) == Absent
    ensures Dequeued(Enqueued(q, u), u) == q
  {
    var r := q + [Entry(u, Queue)];
    assert forall k :: 0 <= k < |q| ==> r[k] == q[k] && q[k].url != u;
    assert r[|q|] == Entry(u, Queue);
    assert EntryIndex(r, u) == |q|;
    assert r[..|q|] == q;
  }
}
