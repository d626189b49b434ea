/**
 The worker pool that fills a hash table (pkg/target_determinator.go:
 QueryResults.PrefillCache), as a machine of one sender and any number of workers
 over the table of module MemoTable.

 The machine has Go's blocking rules: a send waits for room, a receive waits for an
 item or for the channel to be closed, Wait waits for the counter to reach zero.
 */
module Prefill {
  import opened Wrappers
  import opened Workspace
  import opened Hashing
  import opened HashCalls
  import opened HashCache
  import opened MemoTable

  /** Where the goroutine that called PrefillCache is. */
  datatype Main =
    | Checking                            // about to look for an error, or out of items
    | Sending                             // has added the next item to the counter
    | Closing
    | WaitingForAll
    | Finished(error: Option<HashError>)

  datatype Worker =
    | Receiving
    | Hashing(item: Label)
    | Reporting(item: Label, error: HashError)
    | Marking(item: Label)                // about to mark the item done
    | Exited

  /** `sent` is the sender's position, `marked` records which items were marked done. */
  datatype Pool = Pool(
    main: Main, sent: nat, channel: seq<Label>, closed: bool, errors: Option<HashError>, fired: bool,
    pending: int, frozen: bool, workers: seq<Worker>, memo: State, marked: multiset<Label>)

  datatype Job = Job(query: Query, items: seq<Label>)

  function Start(job: Job, workers: nat): Pool {
    Pool(Checking, 0, [], false, None, false, 0, false, seq(workers, _ => Receiving),
         Initial(job.query, workers), multiset{})
  }

  // ---------- Steps ----------

  predicate MainCanStep(p: Pool) {
    match p.main
    case Checking => true
    case Sending => |p.channel| < |p.workers|
    case Closing => true
    case WaitingForAll => p.pending == 0
    case Finished(_) => false
  }

  function MainStep(job: Job, p: Pool): Pool
    requires MainCanStep(p) && (p.main.Sending? ==> p.sent < |job.items|)
  {
    match p.main
    case Checking =>
      if p.sent >= |job.items| || p.errors.Some? then p.(main := Closing)
      else p.(main := Sending, pending := p.pending + 1)
    case Sending => p.(main := Checking, channel := p.channel + [job.items[p.sent]], sent := p.sent + 1)
    case Closing => p.(main := WaitingForAll, closed := true)
    case WaitingForAll =>
      if p.errors.Some? then p.(main := Finished(p.errors), errors := None)
      else p.(main := Finished(None), frozen := true)
  }

  /** Sending an error needs room in the error channel, which holds one. */
  ghost predicate WorkerCanStep(job: Job, p: Pool, w: nat) {
    && w < |p.workers| == |p.memo.stacks|
    && match p.workers[w]
       case Receiving => p.channel != [] || p.closed
       case Hashing(_) => IsOver(p.memo.stacks[w]) || Enabled(job.query, p.memo, w)
       case Reporting(_, _) => p.fired || p.errors.None?
       case Marking(_) => true
       case Exited => false
  }

  ghost function WorkerStep(job: Job, p: Pool, w: nat): Pool
    requires WorkerCanStep(job, p, w)
  {
    match p.workers[w]
    case Receiving =>
      if p.channel == [] then p.(workers := p.workers[w := Exited])
      else p.(channel := p.channel[1..], workers := p.workers[w := Hashing(p.channel[0])],
              memo := Begin(p.memo, w, p.channel[0]))
    case Hashing(item) =>
      if !IsOver(p.memo.stacks[w]) then p.(memo := Step(job.query, p.memo, w))
      else
        p.(memo := End(p.memo, w),
           workers := p.workers[w := match p.memo.stacks[w][0].result
                                     case Ok(_) => Marking(item)
                                     case Err(error) => Reporting(item, error)])
    case Reporting(item, error) =>
      p.(fired := true, errors := if p.fired then p.errors else Some(error), workers := p.workers[w := Marking(item)])
    case Marking(item) =>
      p.(pending := p.pending - 1, marked := p.marked + multiset{item}, workers := p.workers[w := Receiving])
  }

  ghost predicate Next(job: Job, p: Pool, q: Pool) {
    || (MainCanStep(p) && (p.main.Sending? ==> p.sent < |job.items|) && q == MainStep(job, p))
    || (exists w :: WorkerCanStep(job, p, w) && q == WorkerStep(job, p, w))
  }

  // ---------- The invariant ----------

  predicate IsBusy(worker: Worker) {
    worker.Hashing? || worker.Reporting? || worker.Marking?
  }

  function BusyCount(workers: seq<Worker>): nat {
    if workers == [] then 0
    else BusyCount(workers[..|workers| - 1]) + if IsBusy(workers[|workers| - 1]) then 1 else 0
  }

  /** The items that workers have received and not yet marked done. */
  function Busy(workers: seq<Worker>): multiset<Label> {
    if workers == [] then multiset{}
    else
      var others := Busy(workers[..|workers| - 1]);
      if IsBusy(workers[|workers| - 1]) then others + multiset{workers[|workers| - 1].item} else others
  }

  /** What one busy worker adds. */
  lemma {:induction false} BusyWithout(workers: seq<Worker>, w: nat, idle: Worker)
    requires w < |workers| && IsBusy(workers[w]) && !IsBusy(idle)
    ensures Busy(workers) == Busy(workers[w := idle]) + multiset{workers[w].item}
    ensures BusyCount(workers) == BusyCount(workers[w := idle]) + 1
  {
    var n := |workers| - 1;
    var without := workers[w := idle];
    if w == n {
      assert without[..n] == workers[..n];
    } else {
      assert without[..n] == workers[..n][w := idle];
      BusyWithout(workers[..n], w, idle);
    }
  }

  lemma BusySame(workers: seq<Worker>, w: nat, worker: Worker)
    requires w < |workers| && IsBusy(workers[w]) == IsBusy(worker) && (IsBusy(worker) ==> workers[w].item == worker.item)
    ensures Busy(workers[w := worker]) == Busy(workers) && BusyCount(workers[w := worker]) == BusyCount(workers)
  {
    hide Busy, BusyCount;
    if IsBusy(worker) {
      BusyWithout(workers, w, Receiving);
      BusyWithout(workers[w := worker], w, Receiving);
      assert workers[w := worker][w := Receiving] == workers[w := Receiving];
    } else {
      IdleSame(workers, w, worker);
    }
  }

  lemma {:induction false} IdleSame(workers: seq<Worker>, w: nat, worker: Worker)
    requires w < |workers| && !IsBusy(workers[w]) && !IsBusy(worker)
    ensures Busy(workers[w := worker]) == Busy(workers) && BusyCount(workers[w := worker]) == BusyCount(workers)
  {
    var n := |workers| - 1;
    var after := workers[w := worker];
    if w == n {
      assert after[..n] == workers[..n];
    } else {
      assert after[..n] == workers[..n][w := worker];
      IdleSame(workers[..n], w, worker);
    }
  }

  lemma {:induction false} NobodyBusy(workers: seq<Worker>)
    requires BusyCount(workers) == 0
    ensures Busy(workers) == multiset{} && forall worker | worker in workers :: !IsBusy(worker)
  {
    if workers != [] {
      NobodyBusy(workers[..|workers| - 1]);
      assert workers == workers[..|workers| - 1] + [workers[|workers| - 1]];
    }
  }

  predicate Stored(p: Pool, l: Label) {
    l in p.memo.table && p.memo.table[l].hash.Some?
  }

  ghost predicate WorkerOk(job: Job, p: Pool, w: nat)
    requires Acyclic(job.query.graph) && w < |p.workers| == |p.memo.stacks|
  {
    var stack := p.memo.stacks[w];
    match p.workers[w]
    case Receiving => stack == []
    case Hashing(item) => stack != [] && stack[0].l == item
    case Reporting(item, error) => stack == [] && ResultOf(job.query, item) == Err(error)
    case Marking(item) => stack == [] && (p.fired || Stored(p, item))
    case Exited => stack == [] && p.closed && p.channel == []
  }

  /** Every item sent is in the channel, with a worker, or marked done, and the counter says how many are not done. */
  ghost predicate Accounted(job: Job, p: Pool) {
    && p.sent <= |job.items|
    && Balances(multiset(job.items[..p.sent]), multiset(p.channel), Busy(p.workers), p.marked)
    && p.pending == |p.channel| + BusyCount(p.workers) + (if p.main.Sending? then 1 else 0)
  }

  ghost predicate Balances(sent: multiset<Label>, queued: multiset<Label>, busy: multiset<Label>, marked: multiset<Label>) {
    sent == queued + busy + marked
  }

  ghost predicate IsItemError(job: Job, error: HashError)
    requires Acyclic(job.query.graph)
  {
    exists l :: l in job.items && ResultOf(job.query, l) == Err(error)
  }

  ghost predicate MainOk(job: Job, p: Pool)
    requires Acyclic(job.query.graph)
  {
    && |p.channel| <= |p.workers|
    && (p.main.Sending? ==> p.sent < |job.items|)
    && (p.main.Checking? || p.main.Sending? || p.fired || p.sent == |job.items|)
    && (p.closed <==> p.main.WaitingForAll? || p.main.Finished?)
    && (p.errors.Some? ==> p.fired && IsItemError(job, p.errors.value))
    && (p.fired ==> p.errors.Some? || p.main.Finished?)
    && (p.main.Finished? ==> p.pending == 0 && (p.main.error.None? <==> !p.fired))
    && (p.main.Finished? && p.main.error.Some? ==> IsItemError(job, p.main.error.value))
    && (p.frozen <==> p.main == Finished(None))
  }

  ghost predicate PoolInv(job: Job, p: Pool) {
    && Acyclic(job.query.graph) && Inv(job.query, p.memo) && |p.workers| == |p.memo.stacks|
    && (forall w | 0 <= w < |p.workers| :: WorkerOk(job, p, w))
    && Accounted(job, p) && MainOk(job, p)
    && (forall l | l in p.marked :: p.fired || Stored(p, l))
  }

  lemma StartInv(job: Job, workers: nat)
    requires Acyclic(job.query.graph)
    ensures PoolInv(job, Start(job, workers))
  {
    InitialInv(job.query, workers);
    NobodyHasReceived(workers);
  }

  lemma {:induction false} NobodyHasReceived(n: nat)
    ensures Busy(seq(n, _ => Receiving)) == multiset{} && BusyCount(seq(n, _ => Receiving)) == 0
  {
    var workers: seq<Worker> := seq(n, _ => Receiving);
    if n > 0 {
      assert workers[..n - 1] == seq(n - 1, _ => Receiving);
      NobodyHasReceived(n - 1);
    }
  }

  lemma MainStepKeepsInv(job: Job, p: Pool)
    requires PoolInv(job, p) && MainCanStep(p)
    ensures PoolInv(job, MainStep(job, p))
  {
    hide Inv, Accounted, WorkerOk, Acyclic;
    MainStepKeepsAccounts(job, p);
    MainStepKeepsMain(job, p);
    MainStepKeepsWorkers(job, p);
    hide MainOk;
  }

  lemma MainStepKeepsWorkers(job: Job, p: Pool)
    requires Acyclic(job.query.graph) && MainOk(job, p) && MainCanStep(p) && |p.workers| == |p.memo.stacks|
    requires forall w | 0 <= w < |p.workers| :: WorkerOk(job, p, w)
    ensures forall w | 0 <= w < |p.workers| :: WorkerOk(job, MainStep(job, p), w)
  {
    hide Acyclic, ResultOf, IsItemError;
    var q := MainStep(job, p);
    assert p.closed ==> q.channel == p.channel;
    forall w | 0 <= w < |p.workers|
      ensures WorkerOk(job, q, w)
    {
      assert WorkerOk(job, p, w);
    }
  }

  lemma MainStepKeepsMain(job: Job, p: Pool)
    requires Acyclic(job.query.graph) && Accounted(job, p) && MainOk(job, p) && MainCanStep(p)
    ensures MainOk(job, MainStep(job, p))
  {
    hide Busy, BusyCount, Balances, IsItemError;
  }

  lemma MainStepKeepsAccounts(job: Job, p: Pool)
    requires Accounted(job, p) && MainCanStep(p) && (p.main.Sending? ==> p.sent < |job.items|)
    ensures Accounted(job, MainStep(job, p))
  {
    hide Busy, BusyCount, Balances;
    var q := MainStep(job, p);
    assert !p.main.Sending? ==> q.channel == p.channel && q.sent == p.sent;
    if p.main.Sending? {
      var item := job.items[p.sent];
      assert job.items[..p.sent + 1] == job.items[..p.sent] + [item];
      ItemIsSent(multiset(job.items[..p.sent]), multiset(p.channel), Busy(p.workers), p.marked, item);
      assert multiset(p.channel + [item]) == multiset(p.channel) + multiset{item};
      assert multiset(job.items[..p.sent] + [item]) == multiset(job.items[..p.sent]) + multiset{item};
    }
  }

  lemma ItemIsSent(sent: multiset<Label>, queued: multiset<Label>, busy: multiset<Label>, marked: multiset<Label>,
                   item: Label)
    requires Balances(sent, queued, busy, marked)
    ensures Balances(sent + multiset{item}, queued + multiset{item}, busy, marked)
  {
  }

  /** What a step of worker `w` owes to the others: nothing they rely on is taken away. */
  ghost predicate LeavesOthers(p: Pool, q: Pool, w: nat) {
    && |q.workers| == |p.workers| == |p.memo.stacks| == |q.memo.stacks|
    && (forall v | 0 <= v < |p.workers| && v != w ::
          q.workers[v] == p.workers[v] && q.memo.stacks[v] == p.memo.stacks[v])
    && Extends(p.memo.table, q.memo.table)
    && (p.fired ==> q.fired) && (p.closed ==> q.closed) && (p.channel == [] ==> q.channel == [])
  }

  lemma OthersStayOk(job: Job, p: Pool, q: Pool, w: nat)
    requires PoolInv(job, p) && w < |p.workers| && LeavesOthers(p, q, w)
    requires WorkerOk(job, q, w)
    requires forall l | l in q.marked && l !in p.marked :: q.fired || Stored(q, l)
    ensures forall v | 0 <= v < |q.workers| :: WorkerOk(job, q, v)
    ensures forall l | l in q.marked :: q.fired || Stored(q, l)
  {
    hide Inv, ResultOf, Accounted, MainOk;
    forall v | 0 <= v < |q.workers|
      ensures WorkerOk(job, q, v)
    {
      assert WorkerOk(job, p, v);
    }
  }

  lemma WorkerStepKeepsInv(job: Job, p: Pool, w: nat)
    requires PoolInv(job, p) && WorkerCanStep(job, p, w)
    ensures PoolInv(job, WorkerStep(job, p, w))
  {
    WorkerStepKeepsAccounts(job, p, w);
    WorkerStepKeepsMain(job, p, w);
    MemoStaysGood(job, p, w);
    MarkedAreStored(job, p, w);
    var q := WorkerStep(job, p, w);
    hide Inv, Accounted, MainOk, WorkerOk, LeavesOthers, Stored, WorkerStep, WorkerCanStep;
    OthersStayOk(job, p, q, w);
  }

  lemma WorkerStepKeepsAccounts(job: Job, p: Pool, w: nat)
    requires Accounted(job, p) && WorkerCanStep(job, p, w)
    ensures Accounted(job, WorkerStep(job, p, w))
  {
    hide Accounted, Enabled, Step, Begin, End;
    if p.workers[w].Receiving? && p.channel != [] {
      ReceiveKeepsAccounts(job, p, w, WorkerStep(job, p, w));
    } else if p.workers[w].Marking? {
      MarkKeepsAccounts(job, p, w, WorkerStep(job, p, w));
    } else {
      OtherStepKeepsAccounts(job, p, w);
    }
  }

  lemma ReceiveKeepsAccounts(job: Job, p: Pool, w: nat, q: Pool)
    requires Accounted(job, p) && w < |p.workers| && p.workers[w].Receiving? && p.channel != []
    requires q.main == p.main && q.sent == p.sent && q.pending == p.pending && q.marked == p.marked
    requires q.channel == p.channel[1..] && q.workers == p.workers[w := Hashing(p.channel[0])]
    ensures Accounted(job, q)
  {
    var item := p.channel[0];
    BusyWithout(q.workers, w, Receiving);
    assert q.workers[w := Receiving] == p.workers;
    assert p.channel == [item] + q.channel;
    hide Busy, BusyCount, Balances;
    assert multiset([item] + q.channel) == multiset{item} + multiset(q.channel);
    ItemIsReceived(multiset(job.items[..p.sent]), multiset(q.channel), Busy(p.workers), p.marked, item);
  }

  lemma MarkKeepsAccounts(job: Job, p: Pool, w: nat, q: Pool)
    requires Accounted(job, p) && w < |p.workers| && p.workers[w].Marking?
    requires q.main == p.main && q.sent == p.sent && q.channel == p.channel && q.pending == p.pending - 1
    requires q.marked == p.marked + multiset{p.workers[w].item} && q.workers == p.workers[w := Receiving]
    ensures Accounted(job, q)
  {
    BusyWithout(p.workers, w, Receiving);
    hide Busy, BusyCount, Balances;
    ItemIsMarked(multiset(job.items[..p.sent]), multiset(p.channel), Busy(q.workers), p.marked, p.workers[w].item);
  }

  lemma OtherStepKeepsAccounts(job: Job, p: Pool, w: nat)
    requires Accounted(job, p) && WorkerCanStep(job, p, w)
    requires !p.workers[w].Marking? && (p.workers[w].Receiving? ==> p.channel == [])
    ensures Accounted(job, WorkerStep(job, p, w))
  {
    hide Balances, Busy, BusyCount, Enabled, Step, Begin, End;
    var after := WorkerStep(job, p, w).workers[w];
    assert WorkerStep(job, p, w).workers == p.workers[w := after];
    BusySame(p.workers, w, after);
  }

  lemma ItemIsReceived(sent: multiset<Label>, queued: multiset<Label>, busy: multiset<Label>,
                       marked: multiset<Label>, item: Label)
    requires Balances(sent, multiset{item} + queued, busy, marked)
    ensures Balances(sent, queued, busy + multiset{item}, marked)
  {
  }

  lemma ItemIsMarked(sent: multiset<Label>, queued: multiset<Label>, busy: multiset<Label>, marked: multiset<Label>,
                     item: Label)
    requires Balances(sent, queued, busy + multiset{item}, marked)
    ensures Balances(sent, queued, busy, marked + multiset{item})
  {
  }

  lemma WorkerStepKeepsMain(job: Job, p: Pool, w: nat)
    requires Acyclic(job.query.graph) && MainOk(job, p) && Accounted(job, p) && WorkerCanStep(job, p, w)
    requires WorkerOk(job, p, w)
    ensures MainOk(job, WorkerStep(job, p, w))
  {
    if IsBusy(p.workers[w]) {
      BusyItemIsPending(job, p, w);
    }
    hide Accounted, Busy, BusyCount, Enabled, Step, ResultOf;
  }

  lemma BusyItemIsPending(job: Job, p: Pool, w: nat)
    requires Accounted(job, p) && w < |p.workers| && IsBusy(p.workers[w])
    ensures p.workers[w].item in job.items && p.pending > 0
  {
    var item := p.workers[w].item;
    BusyWithout(p.workers, w, Receiving);
    hide Busy, BusyCount;
    assert item in Busy(p.workers);
    assert item in multiset(job.items[..p.sent]);
  }

  lemma MarkedAreStored(job: Job, p: Pool, w: nat)
    requires PoolInv(job, p) && WorkerCanStep(job, p, w)
    ensures forall l | l in WorkerStep(job, p, w).marked && l !in p.marked :: WorkerStep(job, p, w).fired || Stored(WorkerStep(job, p, w), l)
  {
    assert WorkerOk(job, p, w);
    hide Inv, Accounted, MainOk, Enabled, Step, ResultOf, WorkerOk;
    if p.workers[w].Marking? {
      MarkedIsStored(job, p, w);
    }
  }

  lemma MarkedIsStored(job: Job, p: Pool, w: nat)
    requires Acyclic(job.query.graph) && w < |p.workers| == |p.memo.stacks|
    requires WorkerOk(job, p, w) && p.workers[w].Marking?
    ensures p.fired || Stored(p, p.workers[w].item)
  {
  }

  /** The table keeps its invariant, and the worker its own part of the pool's. */
  lemma MemoStaysGood(job: Job, p: Pool, w: nat)
    requires PoolInv(job, p) && WorkerCanStep(job, p, w)
    ensures var q := WorkerStep(job, p, w);
            Inv(job.query, q.memo) && LeavesOthers(p, q, w) && WorkerOk(job, q, w)
  {
    assert WorkerOk(job, p, w);
    hide Accounted, MainOk, ResultOf, Inv, WorkerOk;
    match p.workers[w]
    case Receiving => ReceivingIsGood(job, p, w);
    case Hashing(item) =>
      if IsOver(p.memo.stacks[w]) {
        ReturningIsGood(job, p, w);
      } else {
        HashingIsGood(job, p, w);
      }
    case _ => ReportingIsGood(job, p, w);
  }

  lemma ReceivingIsGood(job: Job, p: Pool, w: nat)
    requires Inv(job.query, p.memo) && WorkerCanStep(job, p, w) && WorkerOk(job, p, w) && p.workers[w].Receiving?
    ensures var q := WorkerStep(job, p, w);
            Inv(job.query, q.memo) && LeavesOthers(p, q, w) && WorkerOk(job, q, w)
  {
    if p.channel != [] {
      BeginKeepsInv(job.query, p.memo, w, p.channel[0]);
    }
    hide Inv, Enabled, Step;
  }

  lemma HashingIsGood(job: Job, p: Pool, w: nat)
    requires Inv(job.query, p.memo) && WorkerCanStep(job, p, w) && WorkerOk(job, p, w)
    requires p.workers[w].Hashing? && !IsOver(p.memo.stacks[w])
    ensures var q := WorkerStep(job, p, w);
            Inv(job.query, q.memo) && LeavesOthers(p, q, w) && WorkerOk(job, q, w)
  {
    StepKeepsInv(job.query, p.memo, w);
    AdvanceKeepsOutermost(job.query, p.memo.table, w, p.memo.stacks[w]);
    hide Inv, Extends, Advance;
  }

  /** A returned hash is stored, and a returned error is that of the item. */
  lemma ReturningIsGood(job: Job, p: Pool, w: nat)
    requires Inv(job.query, p.memo) && WorkerCanStep(job, p, w) && WorkerOk(job, p, w)
    requires p.workers[w].Hashing? && IsOver(p.memo.stacks[w])
    ensures var q := WorkerStep(job, p, w);
            Inv(job.query, q.memo) && LeavesOthers(p, q, w) && WorkerOk(job, q, w)
  {
    EndKeepsInv(job.query, p.memo, w);
    hide Inv, Enabled, Step;
  }

  lemma ReportingIsGood(job: Job, p: Pool, w: nat)
    requires Inv(job.query, p.memo) && WorkerCanStep(job, p, w) && WorkerOk(job, p, w)
    requires p.workers[w].Reporting? || p.workers[w].Marking? || p.workers[w].Exited?
    ensures var q := WorkerStep(job, p, w);
            Inv(job.query, q.memo) && LeavesOthers(p, q, w) && WorkerOk(job, q, w)
  {
    hide Inv, Enabled, Step;
  }

  // ---------- Results ----------

  /** When the pool is finished, every item sent was marked done exactly once. */
  lemma FinishedMeansMarked(job: Job, p: Pool)
    requires PoolInv(job, p) && p.main.Finished?
    ensures p.channel == [] && p.marked == multiset(job.items[..p.sent])
    ensures forall worker | worker in p.workers :: !IsBusy(worker)
  {
    hide Inv;
    NobodyBusy(p.workers);
  }

  /**
   PrefillCache returns nil exactly when every item can be hashed, and then every
   item's hash is in the table and the table is frozen. Otherwise it returns the
   error of some item.
   */
  lemma FinishedMeansHashed(job: Job, p: Pool)
    requires PoolInv(job, p) && p.main.Finished?
    ensures p.main.error.None? <==> forall l | l in job.items :: ResultOf(job.query, l).Ok?
    ensures p.main.error.Some? ==> exists l :: l in job.items && ResultOf(job.query, l) == Err(p.main.error.value)
    ensures p.main.error.None? ==>
              && p.frozen && p.marked == multiset(job.items)
              && forall l | l in job.items :: l in p.memo.table && p.memo.table[l].hash == Some(ResultOf(job.query, l).value)
  {
    FinishedMeansMarked(job, p);
    if p.main.error.None? {
      assert job.items[..p.sent] == job.items;
      forall l | l in job.items
        ensures Stored(p, l) && Ok(p.memo.table[l].hash.value) == ResultOf(job.query, l)
      {
        assert l in p.marked;
        assert EntryOk(job.query, l, p.memo.table[l], p.memo.stacks);
      }
    }
    hide ResultOf, Inv;
  }

  function StoredHashes(table: Table): map<Label, Hash> {
    map l | l in table && table[l].hash.Some? :: table[l].hash.value
  }

  /**
   The table that the pool leaves is one that a frozen TargetHashCache may hold, so
   later calls for the items return these hashes and compute nothing.
   */
  lemma FinishedTableCanBeRead(job: Job, p: Pool)
    requires PoolInv(job, p) && p.main == Finished(None)
    ensures Agrees(job.query, StoredHashes(p.memo.table)) && Grows(job.query.seeds, StoredHashes(p.memo.table))
    ensures forall l | l in job.items :: l in StoredHashes(p.memo.table)
  {
    FinishedMeansHashed(job, p);
    hide ResultOf;
    forall l | l in p.memo.table
      ensures EntryOk(job.query, l, p.memo.table[l], p.memo.stacks)
    {
    }
  }

  /** The error channel has room whenever a worker sends to it. */
  lemma ReportNeverBlocks(job: Job, p: Pool, w: nat)
    requires PoolInv(job, p) && w < |p.workers| && p.workers[w].Reporting?
    ensures WorkerCanStep(job, p, w)
  {
  }

  ghost predicate SomeStep(job: Job, p: Pool) {
    MainCanStep(p) || exists w :: WorkerCanStep(job, p, w)
  }

  /** No deadlock: with at least one worker, or with nothing to hash, something can happen until PrefillCache returns. */
  lemma PoolCanStep(job: Job, p: Pool)
    requires PoolInv(job, p) && (|p.workers| > 0 || job.items == []) && !p.main.Finished?
    ensures SomeStep(job, p)
  {
    hide Inv, Enabled, ResultOf;
    if w :| 0 <= w < |p.workers| && IsBusy(p.workers[w]) {
      BusyWorkerMeansStep(job, p, w);
    } else if !MainCanStep(p) {
      NobodyIsBusy(p.workers);
      assert p.channel != [];
      assert WorkerOk(job, p, 0);
      assert p.workers[0].Receiving?;
      assert WorkerCanStep(job, p, 0);
    }
  }

  lemma {:induction false} NobodyIsBusy(workers: seq<Worker>)
    requires forall w | 0 <= w < |workers| :: !IsBusy(workers[w])
    ensures BusyCount(workers) == 0
  {
    if workers != [] {
      NobodyIsBusy(workers[..|workers| - 1]);
    }
  }

  lemma BusyWorkerMeansStep(job: Job, p: Pool, w: nat)
    requires PoolInv(job, p) && w < |p.workers| && IsBusy(p.workers[w])
    ensures exists v :: WorkerCanStep(job, p, v)
  {
    hide Inv, Enabled, ResultOf, Accounted;
    assert WorkerOk(job, p, w);
    if p.workers[w].Hashing? && !IsOver(p.memo.stacks[w]) {
      var v := SomeWorkerCanStep(job.query, p.memo, w);
      EnabledMeansHashing(job, p, v);
    } else {
      assert WorkerCanStep(job, p, w);
    }
  }

  lemma EnabledMeansHashing(job: Job, p: Pool, v: nat)
    requires PoolInv(job, p) && Enabled(job.query, p.memo, v)
    ensures WorkerCanStep(job, p, v)
  {
    assert WorkerOk(job, p, v);
    hide Inv, ResultOf, Accounted, MainOk, Suspended;
  }

  // ---------- Termination ----------

  ghost function ChannelCost(job: Job, channel: seq<Label>): nat
    requires Acyclic(job.query.graph)
  {
    if channel == [] then 0 else ChannelCost(job, channel[..|channel| - 1]) + Cost(job.query, channel[|channel| - 1]) + 4
  }

  /** Each item not sent yet is checked for and sent before it is in the channel. */
  ghost function UnsentCost(job: Job, sent: nat): nat
    requires Acyclic(job.query.graph)
    decreases |job.items| - sent
  {
    if sent >= |job.items| then 0 else UnsentCost(job, sent + 1) + Cost(job.query, job.items[sent]) + 6
  }

  ghost function MainCost(job: Job, p: Pool): nat
    requires Acyclic(job.query.graph)
  {
    match p.main
    case Checking => 3 + UnsentCost(job, p.sent)
    case Sending => 2 + UnsentCost(job, p.sent)
    case Closing => 2
    case WaitingForAll => 1
    case Finished(_) => 0
  }

  ghost function WorkerCost(job: Job, worker: Worker, stack: Stack): nat
    requires Acyclic(job.query.graph)
  {
    match worker
    case Receiving => 1
    case Hashing(_) => 4 + StackCost(job.query, stack)
    case Reporting(_, _) => 3
    case Marking(_) => 2
    case Exited => 0
  }

  ghost function WorkersCost(job: Job, workers: seq<Worker>, stacks: seq<Stack>): nat
    requires Acyclic(job.query.graph) && |workers| == |stacks|
  {
    if workers == [] then 0
    else
      var n := |workers| - 1;
      WorkersCost(job, workers[..n], stacks[..n]) + WorkerCost(job, workers[n], stacks[n])
  }

  /** A bound on the number of steps that are left. */
  ghost function PoolCost(job: Job, p: Pool): nat
    requires Acyclic(job.query.graph) && |p.workers| == |p.memo.stacks|
  {
    MainCost(job, p) + ChannelCost(job, p.channel) + WorkersCost(job, p.workers, p.memo.stacks)
  }

  lemma {:induction false} WorkersCostAfter(job: Job, workers: seq<Worker>, stacks: seq<Stack>, w: nat,
                                            worker: Worker, stack: Stack)
    requires Acyclic(job.query.graph) && w < |workers| == |stacks|
    ensures WorkersCost(job, workers[w := worker], stacks[w := stack]) + WorkerCost(job, workers[w], stacks[w])
            == WorkersCost(job, workers, stacks) + WorkerCost(job, worker, stack)
  {
    var n := |workers| - 1;
    hide WorkerCost, Acyclic;
    if w == n {
      assert workers[w := worker][..n] == workers[..n] && stacks[w := stack][..n] == stacks[..n];
    } else {
      assert workers[w := worker][..n] == workers[..n][w := worker];
      assert stacks[w := stack][..n] == stacks[..n][w := stack];
      WorkersCostAfter(job, workers[..n], stacks[..n], w, worker, stack);
    }
  }

  lemma {:induction false} ReceivedCosts(job: Job, channel: seq<Label>)
    requires Acyclic(job.query.graph) && channel != []
    ensures ChannelCost(job, channel) == ChannelCost(job, channel[1..]) + Cost(job.query, channel[0]) + 4
  {
    hide Cost, Acyclic;
    if |channel| > 1 {
      var most := channel[..|channel| - 1];
      ReceivedCosts(job, most);
      assert channel[1..][..|channel| - 2] == most[1..];
    }
  }

  lemma MainStepCosts(job: Job, p: Pool)
    requires PoolInv(job, p) && MainCanStep(p)
    ensures PoolCost(job, MainStep(job, p)) < PoolCost(job, p)
  {
    hide Inv, Accounted, Cost, WorkersCost, WorkerOk;
    if p.main.Sending? {
      var item := job.items[p.sent];
      assert (p.channel + [item])[..|p.channel|] == p.channel;
      assert ChannelCost(job, p.channel + [item]) == ChannelCost(job, p.channel) + Cost(job.query, item) + 4;
    }
  }

  lemma WorkerStepCosts(job: Job, p: Pool, w: nat)
    requires PoolInv(job, p) && WorkerCanStep(job, p, w)
    ensures |WorkerStep(job, p, w).workers| == |WorkerStep(job, p, w).memo.stacks|
    ensures PoolCost(job, WorkerStep(job, p, w)) < PoolCost(job, p)
  {
    var q := WorkerStep(job, p, w);
    OneWorkerChanges(job, p, w);
    hide Inv, Accounted, MainOk, WorkerOk, Cost, StackCost, Step, Enabled, WorkerStep;
    WorkersCostAfter(job, p.workers, p.memo.stacks, w, q.workers[w], q.memo.stacks[w]);
    StepOfWorkerCosts(job, p, w);
  }

  lemma OneWorkerChanges(job: Job, p: Pool, w: nat)
    requires WorkerCanStep(job, p, w)
    ensures var q := WorkerStep(job, p, w);
            && |q.workers| == |q.memo.stacks| == |p.workers|
            && q.workers == p.workers[w := q.workers[w]] && q.memo.stacks == p.memo.stacks[w := q.memo.stacks[w]]
            && q.main == p.main && q.sent == p.sent
  {
    hide Enabled, Advance;
    match p.workers[w] {
      case Receiving => assert p.channel == [] ==> p.memo.stacks == p.memo.stacks[w := p.memo.stacks[w]];
      case Hashing(_) => assert p.workers == p.workers[w := p.workers[w]];
      case _ => assert p.memo.stacks == p.memo.stacks[w := p.memo.stacks[w]];
    }
  }

  lemma StepOfWorkerCosts(job: Job, p: Pool, w: nat)
    requires PoolInv(job, p) && WorkerCanStep(job, p, w)
    ensures var q := WorkerStep(job, p, w);
            && w < |q.workers| == |q.memo.stacks|
            && ChannelCost(job, q.channel) + WorkerCost(job, q.workers[w], q.memo.stacks[w])
               < ChannelCost(job, p.channel) + WorkerCost(job, p.workers[w], p.memo.stacks[w])
  {
    hide Inv, Accounted, MainOk, WorkerOk, Enabled, Cost, StackCost, Advance;
    match p.workers[w]
    case Receiving => ReceivingCosts(job, p, w);
    case Hashing(_) =>
      if !IsOver(p.memo.stacks[w]) {
        HashingCosts(job, p, w);
      }
    case _ =>
  }

  lemma ReceivingCosts(job: Job, p: Pool, w: nat)
    requires Acyclic(job.query.graph) && WorkerCanStep(job, p, w) && p.workers[w].Receiving?
    ensures var q := WorkerStep(job, p, w);
            && w < |q.workers| == |q.memo.stacks|
            && ChannelCost(job, q.channel) + WorkerCost(job, q.workers[w], q.memo.stacks[w])
               < ChannelCost(job, p.channel) + WorkerCost(job, p.workers[w], p.memo.stacks[w])
  {
    hide Enabled, Cost, Acyclic;
    if p.channel != [] {
      ReceivedCosts(job, p.channel);
      assert StackCost(job.query, [Calling(p.channel[0])]) == Cost(job.query, p.channel[0]);
    }
  }

  lemma HashingCosts(job: Job, p: Pool, w: nat)
    requires PoolInv(job, p) && WorkerCanStep(job, p, w) && p.workers[w].Hashing? && !IsOver(p.memo.stacks[w])
    ensures StackCost(job.query, Step(job.query, p.memo, w).stacks[w]) < StackCost(job.query, p.memo.stacks[w])
  {
    assert StackOk(job.query, p.memo.table, w, p.memo.stacks[w]);
    hide Accounted, MainOk, WorkerOk, StackOk, StackCost;
    AdvanceCosts(job.query, p.memo.table, w, p.memo.stacks[w]);
  }

  ghost predicate IsRun(job: Job, workers: nat, run: seq<Pool>) {
    && run != [] && run[0] == Start(job, workers)
    && forall i, j | 0 <= i && j == i + 1 < |run| :: Next(job, run[i], run[j])
  }

  lemma NextKeepsInv(job: Job, p: Pool, q: Pool)
    requires PoolInv(job, p) && Next(job, p, q)
    ensures PoolInv(job, q) && PoolCost(job, q) < PoolCost(job, p)
    ensures |q.workers| == |p.workers|
  {
    if MainCanStep(p) && q == MainStep(job, p) {
      MainStepKeepsInv(job, p);
      MainStepCosts(job, p);
    } else {
      hide Inv, Accounted, MainOk, WorkerOk, PoolCost, MainStep;
      var w :| WorkerCanStep(job, p, w) && q == WorkerStep(job, p, w);
      WorkerStepKeepsInv(job, p, w);
      WorkerStepCosts(job, p, w);
      OneWorkerChanges(job, p, w);
    }
  }

  /** Whatever the interleaving, the invariant holds throughout, and no run is longer than the cost it starts with. */
  lemma {:induction false} RunsAreBounded(job: Job, workers: nat, run: seq<Pool>, i: nat)
    requires Acyclic(job.query.graph) && IsRun(job, workers, run) && i < |run|
    ensures PoolInv(job, run[i]) && |run[i].workers| == workers
    ensures i + PoolCost(job, run[i]) <= PoolCost(job, Start(job, workers))
  {
    hide Inv, PoolCost, Next, Accounted, MainOk;
    if i == 0 {
      StartInv(job, workers);
    } else {
      RunsAreBounded(job, workers, run, i - 1);
      NextKeepsInv(job, run[i - 1], run[i]);
    }
  }

  /** The items sent, and the one that the sender has decided to send. */
  function Committed(p: Pool): nat {
    p.sent + if p.main.Sending? then 1 else 0
  }

  lemma ErrorStopsStep(job: Job, p: Pool, q: Pool)
    requires PoolInv(job, p) && Next(job, p, q) && p.fired
    ensures q.fired && Committed(q) <= Committed(p)
  {
    hide Inv, Accounted, WorkerOk;
    if !(MainCanStep(p) && q == MainStep(job, p)) {
      var w :| WorkerCanStep(job, p, w) && q == WorkerStep(job, p, w);
      hide MainOk, MainStep;
    }
  }

  /** Once an error has been recorded, no further item is sent, except one that the sender had decided to send. */
  lemma {:induction false} ErrorStopsSending(job: Job, workers: nat, run: seq<Pool>, i: nat, j: nat)
    requires Acyclic(job.query.graph) && IsRun(job, workers, run) && i <= j < |run| && run[i].fired
    ensures run[j].fired && Committed(run[j]) <= Committed(run[i])
  {
    hide PoolInv, PoolCost, Next;
    if i < j {
      ErrorStopsSending(job, workers, run, i, j - 1);
      RunsAreBounded(job, workers, run, j - 1);
      ErrorStopsStep(job, run[j - 1], run[j]);
    }
  }

  /** The error that PrefillCache returns or is going to return. */
  function ErrorOf(p: Pool): Option<HashError> {
    if p.main.Finished? then p.main.error else p.errors
  }

  lemma ErrorSurvivesStep(job: Job, p: Pool, q: Pool)
    requires PoolInv(job, p) && Next(job, p, q) && ErrorOf(p).Some?
    ensures ErrorOf(q) == ErrorOf(p)
  {
    hide Inv, Accounted, WorkerOk, IsItemError;
    if !(MainCanStep(p) && q == MainStep(job, p)) {
      var w :| WorkerCanStep(job, p, w) && q == WorkerStep(job, p, w);
      hide MainStep;
    }
  }

  /** The first error is the one returned, however many workers report one. */
  lemma {:induction false} FirstErrorIsKept(job: Job, workers: nat, run: seq<Pool>, i: nat, j: nat)
    requires Acyclic(job.query.graph) && IsRun(job, workers, run) && i <= j < |run| && ErrorOf(run[i]).Some?
    ensures ErrorOf(run[j]) == ErrorOf(run[i])
  {
    hide PoolInv, PoolCost, Next, ErrorOf;
    if i < j {
      FirstErrorIsKept(job, workers, run, i, j - 1);
      RunsAreBounded(job, workers, run, j - 1);
      ErrorSurvivesStep(job, run[j - 1], run[j]);
    }
  }

  /** With a worker, or with nothing to hash, every run that cannot go on has finished, with the results above. */
  lemma StuckRunsAreFinished(job: Job, workers: nat, run: seq<Pool>)
    requires Acyclic(job.query.graph) && IsRun(job, workers, run) && (workers > 0 || job.items == [])
    requires !SomeStep(job, run[|run| - 1])
    ensures run[|run| - 1].main.Finished? && PoolInv(job, run[|run| - 1])
  {
    hide PoolInv, PoolCost, SomeStep;
    RunsAreBounded(job, workers, run, |run| - 1);
    if !run[|run| - 1].main.Finished? {
      PoolCanStep(job, run[|run| - 1]);
    }
  }

  /** The channel holds as many items as there are workers: the sender gets that far before any of them receives. */
  lemma {:induction false} QueueFills(job: Job, workers: nat, n: nat) returns (run: seq<Pool>)
    requires n <= workers && n <= |job.items|
    ensures IsRun(job, workers, run)
    ensures run[|run| - 1] == Start(job, workers).(channel := job.items[..n], sent := n, pending := n)
  {
    if n == 0 {
      run := [Start(job, workers)];
    } else {
      var before := QueueFills(job, workers, n - 1);
      var p := before[|before| - 1];
      var q := MainStep(job, p);
      assert MainCanStep(p) && Next(job, p, q);
      var r := MainStep(job, q);
      assert MainCanStep(q) && Next(job, q, r);
      assert job.items[..n] == job.items[..n - 1] + [job.items[n - 1]];
      hide Next, MainStep;
      run := before + [q, r];
    }
  }

  // ---------- No workers ----------

  /** Without workers, the sender gets as far as its first send, in every run. */
  lemma {:induction false} NoWorkersNeverFinish(job: Job, run: seq<Pool>, i: nat)
    requires IsRun(job, 0, run) && i < |run| && job.items != []
    ensures !run[i].main.Finished?
    ensures run[i] == if i == 0 then Start(job, 0) else MainStep(job, Start(job, 0))
    ensures i <= 1
  {
    if i > 0 {
      NoWorkersNeverFinish(job, run, i - 1);
      assert Next(job, run[i - 1], run[i]);
    }
  }

  lemma FirstSendIsStuck(job: Job)
    requires job.items != []
    ensures IsRun(job, 0, [Start(job, 0), MainStep(job, Start(job, 0))])
    ensures !SomeStep(job, MainStep(job, Start(job, 0)))
  {
    assert Next(job, Start(job, 0), MainStep(job, Start(job, 0)));
  }

  /**
   PrefillCache returns, whatever the interleaving, exactly when there is a worker
   or nothing to hash: a run never goes on forever, and one that cannot go on has
   finished.
   */
  lemma PrefillReturnsIff(job: Job, workers: nat)
    requires Acyclic(job.query.graph)
    ensures (forall run: seq<Pool> | IsRun(job, workers, run) && !SomeStep(job, run[|run| - 1]) :: run[|run| - 1].main.Finished?)
            <==> workers > 0 || job.items == []
  {
    hide SomeStep, MainStep, PoolInv, Next;
    if workers > 0 || job.items == [] {
      forall run: seq<Pool> | IsRun(job, workers, run) && !SomeStep(job, run[|run| - 1])
        ensures run[|run| - 1].main.Finished?
      {
        StuckRunsAreFinished(job, workers, run);
      }
    } else {
      FirstSendIsStuck(job);
      var run := [Start(job, 0), MainStep(job, Start(job, 0))];
      NoWorkersNeverFinish(job, run, 1);
    }
  }
}
