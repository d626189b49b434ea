/**
 Concurrent callers of one hash table (pkg/hash_cache.go: Hash, hashTarget,
 hashRule, and the entry locks they hold while hashing dependencies).

 A worker is a stack of unfinished calls of Hash, outermost first. One step is
 what happens between two synchronisation points: looking up the entry under the
 table lock, acquiring the entry lock, asking for a dependency, or storing the
 hash and releasing the lock. Any worker that is not blocked may step next.
 */
module MemoTable {
  import opened Wrappers
  import opened Workspace
  import opened Hashing
  import opened HashCalls

  datatype Frame =
    | Calling(l: Label)                                          // has not looked up the entry
    | Waiting(l: Label)                                          // wants the entry lock
    | Running(l: Label, todo: seq<Label>, found: map<Label, Hash>) // holds the lock and hashes dependencies
    | Failing(l: Label, error: HashError)                        // holds the lock and is about to return an error
    | Returned(l: Label, result: HashResult)                     // the outermost call is over

  type Stack = seq<Frame>

  datatype Entry = Entry(hash: Option<Hash>, holder: Option<nat>)

  type Table = map<Label, Entry>

  datatype State = State(table: Table, stacks: seq<Stack>)

  // ---------- Steps ----------

  function Top(stack: Stack): Frame
    requires stack != []
  {
    stack[|stack| - 1]
  }

  function Below(stack: Stack): Stack
    requires stack != []
  {
    stack[..|stack| - 1]
  }

  /** A worker is blocked only by a lock that someone holds. */
  predicate CanStep(table: Table, stack: Stack) {
    && stack != []
    && !Top(stack).Returned?
    && (Top(stack).Waiting? && Top(stack).l in table ==> table[Top(stack).l].holder.None?)
  }

  /** How a caller that was hashing `frame.todo[0]` goes on with the result. */
  function Resume(query: Query, frame: Frame, result: HashResult): Frame
    requires frame.Running? && frame.todo != [] && frame.l in query.graph
  {
    match result
    case Ok(hash) => Running(frame.l, frame.todo[1..], frame.found[frame.todo[0] := hash])
    case Err(error) =>
      if Skips(query.graph[frame.l], error) then Running(frame.l, frame.todo[1..], frame.found)
      else Failing(frame.l, error)
  }

  predicate Awaits(query: Query, frame: Frame, l: Label) {
    frame.Running? && frame.todo != [] && frame.todo[0] == l && frame.l in query.graph
  }

  /** The call of `frame` was made by `caller` and is not over. */
  predicate Called(query: Query, caller: Frame, frame: Frame) {
    Awaits(query, caller, frame.l) && !frame.Returned?
  }

  /** Returns from a call of `l` to whatever is below it. */
  function Deliver(query: Query, below: Stack, l: Label, result: HashResult): Stack
    requires below != [] ==> Awaits(query, Top(below), l)
  {
    if below == [] then [Returned(l, result)] else Below(below) + [Resume(query, Top(below), result)]
  }

  /** What the innermost call needs in order to go on; the invariant guarantees it. */
  ghost predicate Ready(query: Query, table: Table, stack: Stack) {
    && stack != []
    && (Top(stack).Waiting? ==> Top(stack).l in table)
    && (Top(stack).Running? ==> Suspended(query, Top(stack).l, Top(stack).todo, Top(stack).found))
    && (Below(stack) != [] ==> Called(query, Top(Below(stack)), Top(stack)))
  }

  /** One step of worker `w`, which alone changes its stack. */
  ghost function Advance(query: Query, table: Table, w: nat, stack: Stack): (Table, Stack)
    requires CanStep(table, stack) && Ready(query, table, stack)
  {
    var below := Below(stack);
    match Top(stack)
    case Calling(l) =>
      (if l in table then table else table[l := Entry(None, None)], below + [Waiting(l)])
    case Waiting(l) =>
      if table[l].hash.Some? then (table, Deliver(query, below, l, Ok(table[l].hash.value)))
      else (table[l := Entry(None, Some(w))],
            below + [if l in query.graph then Running(l, Calls(query, l), map[]) else Failing(l, LabelNotFound)])
    case Running(l, todo, found) =>
      if todo != [] then (table, stack + [Calling(todo[0])])
      else (
        match Compute(query, l, found)
        case Ok(hash) => (table[l := Entry(Some(hash), None)], Deliver(query, below, l, Ok(hash)))
        case Err(error) => (table, below + [Failing(l, error)]))
    case Failing(l, error) =>
      (table[l := Entry(None, None)], Deliver(query, below, l, Err(error)))
  }

  /** Entries are never dropped, and a stored hash never changes. */
  ghost predicate Extends(table: Table, after: Table) {
    && table.Keys <= after.Keys
    && forall l | l in table && table[l].hash.Some? :: after[l].hash == table[l].hash
  }

  // ---------- The invariant ----------

  ghost predicate Holds(table: Table, w: nat, l: Label) {
    l in table && table[l] == Entry(None, Some(w))
  }

  /** A hash is returned only once it is in the table. */
  predicate IsStored(table: Table, l: Label, result: HashResult) {
    result.Ok? ==> l in table && table[l].hash == Some(result.value)
  }

  ghost predicate FrameOk(query: Query, table: Table, w: nat, frame: Frame)
    requires Acyclic(query.graph)
  {
    match frame
    case Calling(_) => true
    case Waiting(l) => l in table
    case Running(l, todo, found) => Holds(table, w, l) && l !in query.seeds && OnTrack(query, l, todo, found)
    case Failing(l, error) => Holds(table, w, l) && ResultOf(query, l) == Err(error)
    case Returned(l, result) => result == ResultOf(query, l) && IsStored(table, l, result)
  }

  /** Every frame is on track, and every frame but the innermost waits for the one above it. */
  ghost predicate StackOk(query: Query, table: Table, w: nat, stack: Stack)
    requires Acyclic(query.graph)
  {
    && (forall i | 0 <= i < |stack| :: FrameOk(query, table, w, stack[i]))
    && (forall i, j | 0 <= i && j == i + 1 < |stack| :: Called(query, stack[i], stack[j]))
  }

  predicate IsHolding(frame: Frame, l: Label) {
    (frame.Running? || frame.Failing?) && frame.l == l
  }

  predicate Held(stack: Stack, l: Label) {
    exists frame :: frame in stack && IsHolding(frame, l)
  }

  /** A lock is held by a call on the stack of its holder, and a stored hash is the recursive one. */
  ghost predicate EntryOk(query: Query, l: Label, entry: Entry, stacks: seq<Stack>)
    requires Acyclic(query.graph)
  {
    && (entry.hash.Some? ==> ResultOf(query, l) == Ok(entry.hash.value))
    && (entry.holder.Some? ==>
          entry.holder.value < |stacks| && Held(stacks[entry.holder.value], l))
  }

  ghost predicate Inv(query: Query, s: State) {
    && Acyclic(query.graph)
    && (forall w | 0 <= w < |s.stacks| :: StackOk(query, s.table, w, s.stacks[w]))
    && (forall l | l in s.table :: EntryOk(query, l, s.table[l], s.stacks))
    && (forall l | l in query.seeds :: l in s.table && s.table[l].hash == Some(query.seeds[l]))
  }

  // ---------- Stacks ----------

  lemma PartsOfStack(query: Query, table: Table, w: nat, stack: Stack)
    requires Acyclic(query.graph) && stack != [] && StackOk(query, table, w, stack)
    ensures StackOk(query, table, w, Below(stack)) && FrameOk(query, table, w, Top(stack))
    ensures Below(stack) != [] ==> Called(query, Top(Below(stack)), Top(stack))
    ensures Ready(query, table, stack)
  {
  }

  lemma PushIsOk(query: Query, table: Table, w: nat, stack: Stack, frame: Frame)
    requires Acyclic(query.graph) && StackOk(query, table, w, stack) && FrameOk(query, table, w, frame)
    requires stack != [] ==> Called(query, Top(stack), frame)
    ensures StackOk(query, table, w, stack + [frame])
  {
    hide FrameOk, Called;
  }

  /** A dependency's label has a smaller rank than that of any call below it. */
  lemma {:induction false} RanksDescend(query: Query, table: Table, w: nat, stack: Stack, i: nat, j: nat)
    requires Acyclic(query.graph) && StackOk(query, table, w, stack) && i < j < |stack|
    ensures Rank(query.graph, stack[j].l) < Rank(query.graph, stack[i].l)
    decreases j - i
  {
    assert Called(query, stack[i], stack[i + 1]) && FrameOk(query, table, w, stack[i]);
    RankDecreases(query.graph, stack[i].l, stack[i + 1].l);
    if i + 1 < j {
      RanksDescend(query, table, w, stack, i + 1, j);
    }
  }

  /** A stack stays good when the table grows and no lock it relies on is touched. */
  lemma StackSurvives(query: Query, table: Table, after: Table, w: nat, stack: Stack)
    requires Acyclic(query.graph) && StackOk(query, table, w, stack)
    requires Extends(table, after)
    requires forall frame | frame in stack && Holds(table, w, frame.l) :: Holds(after, w, frame.l)
    ensures StackOk(query, after, w, stack)
  {
    hide OnTrack, ResultOf, Holds;
    forall i | 0 <= i < |stack|
      ensures FrameOk(query, after, w, stack[i])
    {
      assert FrameOk(query, table, w, stack[i]) && stack[i] in stack;
    }
    hide FrameOk, Called;
  }

  lemma DeliverIsOk(query: Query, table: Table, w: nat, below: Stack, l: Label, result: HashResult)
    requires Acyclic(query.graph) && StackOk(query, table, w, below)
    requires below != [] ==> Awaits(query, Top(below), l)
    requires result == ResultOf(query, l) && IsStored(table, l, result)
    ensures StackOk(query, table, w, Deliver(query, below, l, result))
  {
    if below != [] {
      PartsOfStack(query, table, w, below);
      var caller := Top(below);
      StaysOnTrack(query, caller.l, caller.todo, caller.found);
      hide ResultOf, OnTrack, Skips;
      PushIsOk(query, table, w, Below(below), Resume(query, caller, result));
    }
  }

  /** A call that returns changes no lock held below it. */
  lemma DeliverKeepsHeld(query: Query, below: Stack, l: Label, result: HashResult, held: Label)
    requires below != [] ==> Awaits(query, Top(below), l)
    requires Held(below, held)
    ensures Held(Deliver(query, below, l, result), held)
  {
    var frame :| frame in below && IsHolding(frame, held);
    var after := Deliver(query, below, l, result);
    assert below == Below(below) + [Top(below)];
    if frame in Below(below) {
      assert frame in after;
    } else {
      assert Resume(query, Top(below), result) in after;
    }
  }

  /** Nothing below the innermost call has its label. */
  lemma InnermostIsFresh(query: Query, table: Table, w: nat, stack: Stack)
    requires Acyclic(query.graph) && stack != [] && StackOk(query, table, w, stack)
    ensures forall frame | frame in Below(stack) :: frame.l != Top(stack).l
  {
    forall frame | frame in Below(stack)
      ensures frame.l != Top(stack).l
    {
      var i :| 0 <= i < |stack| - 1 && stack[i] == frame;
      RanksDescend(query, table, w, stack, i, |stack| - 1);
    }
  }

  // ---------- One step ----------

  /** The worker that steps is still on track. */
  lemma AdvanceKeepsStack(query: Query, table: Table, w: nat, stack: Stack)
    requires Acyclic(query.graph) && StackOk(query, table, w, stack)
    requires CanStep(table, stack) && Ready(query, table, stack)
    requires forall l | l in table :: table[l].hash.Some? ==> ResultOf(query, l) == Ok(table[l].hash.value)
    requires forall l | l in query.seeds :: l in table && table[l].hash == Some(query.seeds[l])
    ensures var (after, next) := Advance(query, table, w, stack); StackOk(query, after, w, next)
  {
    var (after, next) := Advance(query, table, w, stack);
    var below := Below(stack);
    PartsOfStack(query, table, w, stack);
    InnermostIsFresh(query, table, w, stack);
    match Top(stack)
    case Calling(l) =>
      hide StackOk, OnTrack, ResultOf;
      StackSurvives(query, table, after, w, below);
      PushIsOk(query, after, w, below, Waiting(l));
    case Waiting(l) =>
      if table[l].hash.Some? {
        hide StackOk, OnTrack, ResultOf;
        DeliverIsOk(query, table, w, below, l, Ok(table[l].hash.value));
      } else {
        if l in query.graph {
          StartsOnTrack(query, l);
        }
        assert l !in query.graph ==> ResultOf(query, l) == Err(LabelNotFound);
        hide StackOk, OnTrack, ResultOf;
        StackSurvives(query, table, after, w, below);
        PushIsOk(query, after, w, below, Top(next));
      }
    case Running(l, todo, found) =>
      if todo != [] {
        hide StackOk, OnTrack, ResultOf;
        PushIsOk(query, table, w, stack, Calling(todo[0]));
      } else {
        EndsOnTrack(query, l, found);
        hide StackOk, OnTrack, ResultOf;
        StackSurvives(query, table, after, w, below);
        match Compute(query, l, found) {
          case Ok(hash) => DeliverIsOk(query, after, w, below, l, Ok(hash));
          case Err(error) => PushIsOk(query, after, w, below, Failing(l, error));
        }
      }
    case Failing(l, error) =>
      hide StackOk, OnTrack, ResultOf;
      StackSurvives(query, table, after, w, below);
      DeliverIsOk(query, after, w, below, l, Err(error));
  }

  lemma AdvanceExtendsTable(query: Query, table: Table, w: nat, stack: Stack)
    requires Acyclic(query.graph) && StackOk(query, table, w, stack)
    requires CanStep(table, stack) && Ready(query, table, stack)
    ensures Extends(table, Advance(query, table, w, stack).0)
    ensures forall v, l | v != w && Holds(table, v, l) :: Holds(Advance(query, table, w, stack).0, v, l)
  {
    PartsOfStack(query, table, w, stack);
    hide StackOk, OnTrack, ResultOf, Deliver;
  }

  /** A new hash is the recursive one. */
  lemma AdvanceStoresResults(query: Query, table: Table, w: nat, stack: Stack, l: Label)
    requires Acyclic(query.graph) && StackOk(query, table, w, stack)
    requires CanStep(table, stack) && Ready(query, table, stack)
    requires l in Advance(query, table, w, stack).0
    requires l in table && table[l].hash.Some? ==> ResultOf(query, l) == Ok(table[l].hash.value)
    ensures var entry := Advance(query, table, w, stack).0[l];
            entry.hash.Some? ==> ResultOf(query, l) == Ok(entry.hash.value)
  {
    PartsOfStack(query, table, w, stack);
    if Top(stack).Running? && Top(stack).todo == [] {
      EndsOnTrack(query, Top(stack).l, Top(stack).found);
    }
    hide StackOk, OnTrack, ResultOf, Deliver;
  }

  /** Locks are taken and released together with the calls that hold them. */
  lemma AdvanceKeepsLocks(query: Query, table: Table, w: nat, stack: Stack, l: Label)
    requires Acyclic(query.graph) && StackOk(query, table, w, stack)
    requires CanStep(table, stack) && Ready(query, table, stack)
    requires l in Advance(query, table, w, stack).0
    requires l in table && table[l].holder == Some(w) ==> Held(stack, l)
    ensures var (after, next) := Advance(query, table, w, stack);
            after[l].holder == Some(w) ==> Held(next, l)
  {
    var (after, next) := Advance(query, table, w, stack);
    var below := Below(stack);
    PartsOfStack(query, table, w, stack);
    hide StackOk, OnTrack, ResultOf, Deliver, Holds, Compute, Held;
    if after[l].holder == Some(w) && !IsHolding(Top(stack), l) && (l in table && table[l].holder == Some(w)) {
      HeldBelowOrOnTop(stack, l);
      match Top(stack) {
        case Calling(_) => HeldBelow(next, l);
        case Waiting(asked) =>
          if table[asked].hash.Some? {
            DeliverKeepsHeld(query, below, asked, Ok(table[asked].hash.value), l);
          } else {
            HeldBelow(next, l);
          }
        case Running(asked, todo, found) =>
          if todo != [] {
            HeldBelow(next, l);
          } else {
            match Compute(query, asked, found) {
              case Ok(hash) => DeliverKeepsHeld(query, below, asked, Ok(hash), l);
              case Err(_) => HeldBelow(next, l);
            }
          }
        case Failing(asked, error) => DeliverKeepsHeld(query, below, asked, Err(error), l);
      }
    } else if after[l].holder == Some(w) {
      if Top(stack).Running? && Top(stack).todo != [] {
        HeldBelow(next, l);
      } else {
        HeldOnTop(next, l);
      }
    }
  }

  /** A lock that another worker holds after the step was held by it before. */
  lemma AdvanceKeepsOtherLocks(query: Query, table: Table, w: nat, stack: Stack, l: Label)
    requires CanStep(table, stack) && Ready(query, table, stack) && l in Advance(query, table, w, stack).0
    ensures forall v | v != w && Advance(query, table, w, stack).0[l].holder == Some(v) ::
              l in table && table[l].holder == Some(v)
  {
  }

  lemma HeldOnTop(stack: Stack, l: Label)
    requires stack != [] && IsHolding(Top(stack), l)
    ensures Held(stack, l)
  {
    assert Top(stack) in stack;
  }

  lemma HeldBelow(stack: Stack, l: Label)
    requires stack != [] && Held(Below(stack), l)
    ensures Held(stack, l)
  {
    var frame :| frame in Below(stack) && IsHolding(frame, l);
    assert frame in stack;
  }

  lemma HeldBelowOrOnTop(stack: Stack, l: Label)
    requires stack != [] && Held(stack, l)
    ensures Held(Below(stack), l) || IsHolding(Top(stack), l)
  {
  }

  // ---------- Runs ----------

  ghost predicate Enabled(query: Query, s: State, w: nat) {
    w < |s.stacks| && CanStep(s.table, s.stacks[w]) && Ready(query, s.table, s.stacks[w])
  }

  ghost function Step(query: Query, s: State, w: nat): State
    requires Enabled(query, s, w)
  {
    var (table, stack) := Advance(query, s.table, w, s.stacks[w]);
    State(table, s.stacks[w := stack])
  }

  /**
   Concurrent memoisation is correct: a step of any worker keeps the invariant, so
   every stored hash is the recursive one, and keeps every hash already stored.
   */
  lemma StepKeepsInv(query: Query, s: State, w: nat)
    requires Inv(query, s) && Enabled(query, s, w)
    ensures Inv(query, Step(query, s, w)) && Extends(s.table, Step(query, s, w).table)
  {
    var stack := s.stacks[w];
    var (table, next) := Advance(query, s.table, w, stack);
    var stacks := s.stacks[w := next];
    AdvanceKeepsStack(query, s.table, w, stack);
    AdvanceExtendsTable(query, s.table, w, stack);
    hide StackOk, OnTrack, ResultOf, Advance, Held, CanStep, Ready;
    forall v | 0 <= v < |stacks|
      ensures StackOk(query, table, v, stacks[v])
    {
      if v != w {
        StackSurvives(query, s.table, table, v, s.stacks[v]);
      }
    }
    forall l | l in table
      ensures EntryOk(query, l, table[l], stacks)
    {
      assert l in s.table ==> EntryOk(query, l, s.table[l], s.stacks);
      AdvanceStoresResults(query, s.table, w, stack, l);
      AdvanceKeepsLocks(query, s.table, w, stack, l);
      AdvanceKeepsOtherLocks(query, s.table, w, stack, l);
    }
  }

  /** An idle worker calls Hash. */
  function Begin(s: State, w: nat, l: Label): State
    requires w < |s.stacks|
  {
    s.(stacks := s.stacks[w := [Calling(l)]])
  }

  /** A worker whose call is over becomes idle. */
  function End(s: State, w: nat): State
    requires w < |s.stacks|
  {
    s.(stacks := s.stacks[w := []])
  }

  predicate IsIdle(stack: Stack) {
    stack == []
  }

  predicate IsOver(stack: Stack) {
    |stack| == 1 && stack[0].Returned?
  }

  lemma BeginKeepsInv(query: Query, s: State, w: nat, l: Label)
    requires Inv(query, s) && w < |s.stacks| && IsIdle(s.stacks[w])
    ensures Inv(query, Begin(s, w, l))
  {
    ReplaceKeepsInv(query, s, w, [Calling(l)]);
  }

  lemma EndKeepsInv(query: Query, s: State, w: nat)
    requires Inv(query, s) && w < |s.stacks| && IsOver(s.stacks[w])
    ensures Inv(query, End(s, w))
    ensures ResultOf(query, s.stacks[w][0].l) == s.stacks[w][0].result
  {
    assert FrameOk(query, s.table, w, s.stacks[w][0]);
    ReplaceKeepsInv(query, s, w, []);
  }

  /** A stack that holds no lock can be replaced by another that needs none. */
  lemma ReplaceKeepsInv(query: Query, s: State, w: nat, stack: Stack)
    requires Inv(query, s) && w < |s.stacks| && StackOk(query, s.table, w, stack)
    requires forall frame | frame in s.stacks[w] :: !frame.Running? && !frame.Failing?
    ensures Inv(query, s.(stacks := s.stacks[w := stack]))
  {
    var after := s.(stacks := s.stacks[w := stack]);
    hide StackOk, ResultOf;
    forall l | l in s.table
      ensures EntryOk(query, l, s.table[l], after.stacks)
    {
      assert EntryOk(query, l, s.table[l], s.stacks);
    }
  }

  function Initial(query: Query, workers: nat): State {
    State(map l | l in query.seeds :: Entry(Some(query.seeds[l]), None), seq(workers, _ => []))
  }

  lemma InitialInv(query: Query, workers: nat)
    requires Acyclic(query.graph)
    ensures Inv(query, Initial(query, workers))
  {
  }

  ghost predicate Next(query: Query, s: State, t: State) {
    exists w | 0 <= w < |s.stacks| ::
      || (Enabled(query, s, w) && t == Step(query, s, w))
      || (IsIdle(s.stacks[w]) && exists l :: t == Begin(s, w, l))
      || (IsOver(s.stacks[w]) && t == End(s, w))
  }

  ghost predicate IsRun(query: Query, workers: nat, run: seq<State>) {
    && run != [] && run[0] == Initial(query, workers)
    && forall i, j | 0 <= i && j == i + 1 < |run| :: Next(query, run[i], run[j])
  }

  lemma NextKeepsInv(query: Query, s: State, t: State)
    requires Inv(query, s) && Next(query, s, t)
    ensures Inv(query, t) && Extends(s.table, t.table)
  {
    hide Inv, Step, Enabled;
    var w :| 0 <= w < |s.stacks| && (
      || (Enabled(query, s, w) && t == Step(query, s, w))
      || (IsIdle(s.stacks[w]) && exists l :: t == Begin(s, w, l))
      || (IsOver(s.stacks[w]) && t == End(s, w)));
    if Enabled(query, s, w) && t == Step(query, s, w) {
      StepKeepsInv(query, s, w);
    } else if IsIdle(s.stacks[w]) && exists l :: t == Begin(s, w, l) {
      var l :| t == Begin(s, w, l);
      BeginKeepsInv(query, s, w, l);
    } else {
      EndKeepsInv(query, s, w);
    }
  }

  /** Whatever the interleaving, the invariant holds throughout and a stored hash is never changed. */
  lemma {:induction false} RunsKeepInv(query: Query, workers: nat, run: seq<State>, i: nat, j: nat)
    requires Acyclic(query.graph) && IsRun(query, workers, run) && i <= j < |run|
    ensures Inv(query, run[j]) && Extends(run[i].table, run[j].table)
    decreases j
  {
    hide Inv, Next;
    if j == 0 {
      InitialInv(query, workers);
    } else if i == j {
      RunsKeepInv(query, workers, run, j - 1, j - 1);
      NextKeepsInv(query, run[j - 1], run[j]);
    } else {
      RunsKeepInv(query, workers, run, i, j - 1);
      NextKeepsInv(query, run[j - 1], run[j]);
    }
  }

  /** In every run, every stored hash and every returned result is what the recursive definition says. */
  lemma RunsAgree(query: Query, workers: nat, run: seq<State>, j: nat)
    requires Acyclic(query.graph) && IsRun(query, workers, run) && j < |run|
    ensures forall l | l in run[j].table && run[j].table[l].hash.Some? :: ResultOf(query, l) == Ok(run[j].table[l].hash.value)
    ensures forall stack: Stack | stack in run[j].stacks && IsOver(stack) :: stack[0].result == ResultOf(query, stack[0].l)
  {
    RunsKeepInv(query, workers, run, j, j);
    hide OnTrack, ResultOf;
    forall stack: Stack | stack in run[j].stacks && IsOver(stack)
      ensures stack[0].result == ResultOf(query, stack[0].l)
    {
      var w :| 0 <= w < |run[j].stacks| && run[j].stacks[w] == stack;
      assert FrameOk(query, run[j].table, w, stack[0]);
    }
  }

  // ---------- No deadlock ----------

  lemma StackOfInv(query: Query, s: State, w: nat)
    requires Inv(query, s) && w < |s.stacks|
    ensures Acyclic(query.graph) && StackOk(query, s.table, w, s.stacks[w])
    ensures s.stacks[w] != [] ==> Ready(query, s.table, s.stacks[w])
    ensures s.stacks[w] != [] && Top(s.stacks[w]).Returned? ==> IsOver(s.stacks[w])
  {
    if s.stacks[w] != [] {
      PartsOfStack(query, s.table, w, s.stacks[w]);
    }
  }

  lemma HolderOfInv(query: Query, s: State, l: Label)
    requires Inv(query, s) && l in s.table && s.table[l].holder.Some?
    ensures s.table[l].holder.value < |s.stacks| && Held(s.stacks[s.table[l].holder.value], l)
  {
    assert EntryOk(query, l, s.table[l], s.stacks);
  }

  /**
   Waits follow dependency edges: from a worker that is not done one gets, by
   following lock holders, to a worker that can step.
   */
  lemma {:induction false} SomeWorkerCanStep(query: Query, s: State, w: nat) returns (v: nat)
    requires Inv(query, s) && w < |s.stacks| && !IsIdle(s.stacks[w]) && !IsOver(s.stacks[w])
    ensures Enabled(query, s, v)
    decreases Rank(query.graph, Top(s.stacks[w]).l)
  {
    hide Inv, StackOk, FrameOk, OnTrack, ResultOf, Suspended, EntryOk;
    var stack := s.stacks[w];
    StackOfInv(query, s, w);
    if CanStep(s.table, stack) {
      return w;
    }
    var l := Top(stack).l;
    var holder := s.table[l].holder.value;
    HolderOfInv(query, s, l);
    var other := s.stacks[holder];
    StackOfInv(query, s, holder);
    var frame :| frame in other && IsHolding(frame, l);
    var i :| 0 <= i < |other| && other[i] == frame;
    if i == |other| - 1 {
      return holder;
    }
    RanksDescend(query, s.table, holder, other, i, |other| - 1);
    v := SomeWorkerCanStep(query, s, holder);
  }

  // ---------- Termination ----------

  /** An upper bound on the steps that a call of `l` takes, blocked ones aside. */
  ghost function Cost(query: Query, l: Label): nat
    requires Acyclic(query.graph)
    decreases Rank(query.graph, l), 1, 0
  {
    if l in query.graph then 2 + RunCost(query, l, Calls(query, l)) else 4
  }

  /** The same once the lock is held and `todo` is left to hash. */
  ghost function RunCost(query: Query, l: Label, todo: seq<Label>): nat
    requires Acyclic(query.graph) && l in query.graph && forall d | d in todo :: d in Deps(query.graph[l])
    ensures RunCost(query, l, todo) >= 2
    decreases Rank(query.graph, l), 0, |todo|
  {
    if todo == [] then 2
    else (
      RankDecreases(query.graph, l, todo[0]);
      1 + Cost(query, todo[0]) + RunCost(query, l, todo[1..]))
  }

  /** What a frame still has to do itself, when the frame above it, if any, has been counted apart. */
  ghost function FrameCost(query: Query, frame: Frame, isTop: bool): nat
    requires Acyclic(query.graph)
  {
    match frame
    case Calling(l) => Cost(query, l)
    case Waiting(l) => Cost(query, l) - 1
    case Running(l, todo, found) =>
      if !Suspended(query, l, todo, found) then 0
      else if isTop || todo == [] then RunCost(query, l, todo)
      else RunCost(query, l, todo[1..])
    case Failing(_, _) => 1
    case Returned(_, _) => 0
  }

  ghost function BelowCost(query: Query, stack: Stack): nat
    requires Acyclic(query.graph)
  {
    if stack == [] then 0 else BelowCost(query, Below(stack)) + FrameCost(query, Top(stack), false)
  }

  ghost function StackCost(query: Query, stack: Stack): nat
    requires Acyclic(query.graph)
  {
    if stack == [] then 0 else BelowCost(query, Below(stack)) + FrameCost(query, Top(stack), true)
  }

  lemma DeliverCostsNothing(query: Query, table: Table, w: nat, below: Stack, l: Label, result: HashResult)
    requires Acyclic(query.graph) && StackOk(query, table, w, below)
    requires below != [] ==> Awaits(query, Top(below), l)
    ensures StackCost(query, Deliver(query, below, l, result)) <= BelowCost(query, below)
  {
    if below != [] {
      PartsOfStack(query, table, w, below);
      var caller := Top(below);
      assert Below(Deliver(query, below, l, result)) == Below(below);
      hide ResultOf, OnTrack, Cost, Skips;
      assert RunCost(query, caller.l, caller.todo[1..]) >= 2;
    }
  }

  /** Every step uses up some of the cost, so between calls that begin only finitely many steps happen. */
  lemma AdvanceCosts(query: Query, table: Table, w: nat, stack: Stack)
    requires Acyclic(query.graph) && StackOk(query, table, w, stack)
    requires CanStep(table, stack) && Ready(query, table, stack)
    ensures StackCost(query, Advance(query, table, w, stack).1) < StackCost(query, stack)
  {
    var (after, next) := Advance(query, table, w, stack);
    var below := Below(stack);
    PartsOfStack(query, table, w, stack);
    hide StackOk, OnTrack, ResultOf, Deliver, BelowCost;
    match Top(stack)
    case Calling(l) =>
      assert Below(next) == below;
    case Waiting(l) =>
      if table[l].hash.Some? {
        DeliverCostsNothing(query, table, w, below, l, Ok(table[l].hash.value));
      } else {
        assert Below(next) == below;
      }
    case Running(l, todo, found) =>
      if todo != [] {
        assert Below(next) == stack;
        CallCosts(query, stack);
      } else {
        match Compute(query, l, found) {
          case Ok(hash) => DeliverCostsNothing(query, table, w, below, l, Ok(hash));
          case Err(_) => assert Below(next) == below;
        }
      }
    case Failing(l, error) =>
      DeliverCostsNothing(query, table, w, below, l, Err(error));
  }

  lemma CallCosts(query: Query, stack: Stack)
    requires Acyclic(query.graph) && stack != [] && Top(stack).Running? && Top(stack).todo != []
    requires Suspended(query, Top(stack).l, Top(stack).todo, Top(stack).found)
    ensures BelowCost(query, stack) + Cost(query, Top(stack).todo[0]) < StackCost(query, stack)
  {
  }

  /** A worker goes on with the call it began until that call is over. */
  lemma AdvanceKeepsOutermost(query: Query, table: Table, w: nat, stack: Stack)
    requires CanStep(table, stack) && Ready(query, table, stack)
    ensures var next := Advance(query, table, w, stack).1;
            next != [] && next[0].l == stack[0].l
  {
  }
}