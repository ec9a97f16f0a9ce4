/** Parallel puzzle solving (lib_miner/src/miner.rs, `solve_puzzle`): worker iterations under the found
    lock, the spawning and joining thread, and cancellation from outside, in every interleaving and
    over any number of calls one after another. */
module Miners {
  import opened Basics
  import opened Types

  datatype Option<+T> = None | Some(value: T)

  datatype PuzzleSolution = PuzzleSolution(puzzle: string, nonce: string, hash: string)

  /** The arguments of one call. */
  datatype Call = Call(
    puzzle: string,
    nonceLen: nat,
    leadingZeroLen: nat,
    threadCount: nat,
    seed0: nat)

  datatype Status = Running | Found(solution: PuzzleSolution) | Stopped(sawCancel: bool)

  /** `tried` records the seeds the worker has hashed. */
  datatype Worker = Worker(seed: nat, tried: seq<nat>, status: Status)

  /** The shared state: the workers this call has spawned so far, whether one more is counted but not
      started yet, the workers of earlier calls that are still running, the found flag, the cancellation
      token, the miner's counter and flag, how many workers were joined, and what the call returned.
      A call that returns a solution joins no further worker, so others may outlive it. */
  datatype State = State(
    workers: seq<Worker>,
    counted: bool,
    stale: nat,
    found: bool,
    cancel: bool,
    counter: int,
    isRunning: bool,
    joined: nat,
    result: Option<Option<PuzzleSolution>>)

  function Attempt(env: Env, c: Call, seed: nat): PuzzleSolution {
    var nonce := env.nonceFor(seed, c.nonceLen);
    PuzzleSolution(c.puzzle, nonce, env.sha256(nonce + c.puzzle))
  }

  /** A call begins while `stale` workers of earlier calls still run. */
  function Start(cancel: bool, stale: nat, counter: int): State {
    State([], false, stale, false, cancel, counter, true, 0, None)
  }

  // ----- the atomic steps -----

  /** The next worker is counted. */
  ghost predicate Count(c: Call, s: State, s': State) {
    && |s.workers| < c.threadCount && !s.counted
    && s' == s.(counted := true, counter := s.counter + 1)
  }

  /** And started. */
  ghost predicate Spawn(c: Call, s: State, s': State) {
    && |s.workers| < c.threadCount && s.counted
    && s' == s.(workers := s.workers + [Worker(c.seed0 + |s.workers|, [], Running)], counted := false)
  }

  /** One iteration of worker `i`, from the hash to the release of the found lock. */
  ghost predicate Iterate(env: Env, c: Call, s: State, i: nat, s': State) {
    && i < |s.workers| && s.workers[i].status == Running
    && var w := s.workers[i];
       var tried := w.tried + [w.seed];
       if s.cancel || s.found then
         s' == s.(workers := s.workers[i := w.(tried := tried, status := Stopped(s.cancel))], counter := s.counter - 1)
       else if StartsWithZeros(Attempt(env, c, w.seed).hash, c.leadingZeroLen) then
         s' == s.(workers := s.workers[i := w.(tried := tried, status := Found(Attempt(env, c, w.seed)))],
                  found := true, counter := s.counter - 1)
       else
         s' == s.(workers := s.workers[i := w.(tried := tried, seed := w.seed + c.threadCount)])
  }

  /** The calling thread joins the next worker once all are spawned and that one has ended. */
  ghost predicate Join(c: Call, s: State, s': State) {
    && |s.workers| == c.threadCount && s.result == None
    && if s.joined == c.threadCount then
         s' == s.(isRunning := false, result := Some(None))
       else
         && s.joined < c.threadCount
         && match s.workers[s.joined].status
            case Running => false
            case Found(solution) => s' == s.(isRunning := false, result := Some(Some(solution)))
            case Stopped(_) => s' == s.(joined := s.joined + 1)
  }

  /** A worker of an earlier call ends; its found flag and its solution are its own call's. */
  ghost predicate EndStale(s: State, s': State) {
    s.stale > 0 && s' == s.(stale := s.stale - 1, counter := s.counter - 1)
  }

  /** Anyone may set or clear the token at any time. */
  ghost predicate SetToken(s: State, s': State) {
    exists b: bool :: s' == s.(cancel := b)
  }

  ghost predicate SolveStep(env: Env, c: Call, s: State, s': State) {
    || Count(c, s, s') || Spawn(c, s, s') || (exists i: nat :: Iterate(env, c, s, i, s'))
    || Join(c, s, s') || EndStale(s, s') || SetToken(s, s')
  }

  /** After a call has returned, the next one starts; the workers still running become stale. */
  ghost predicate NextCall(s: State, s': State) {
    s.result.Some? && s' == Start(s.cancel, s.stale + Live(s.workers), s.counter)
  }

  // ----- the invariant -----

  function Live(ws: seq<Worker>): nat {
    if ws == [] then 0 else Live(ws[..|ws| - 1]) + (if ws[|ws| - 1].status == Running then 1 else 0)
  }

  /** Seed number `k` of worker `i`. */
  function SeedAt(c: Call, i: nat, k: nat): nat {
    c.seed0 + i + k * c.threadCount
  }

  /** The nonce of this seed does not solve the puzzle. */
  ghost predicate Misses(env: Env, c: Call, seed: nat) {
    !(seq(c.leadingZeroLen, _ => '0') <= env.sha256(env.nonceFor(seed, c.nonceLen) + c.puzzle))
  }

  /** Worker `i` has tried its own arithmetic progression of seeds, in vain but for the last, and stands at the
      next of them while it runs; a solution it found is the attempt at its last seed. */
  ghost predicate WorkerOk(env: Env, c: Call, i: nat, w: Worker) {
    && (forall k | 0 <= k < |w.tried| :: w.tried[k] == SeedAt(c, i, k))
    && (w.status == Running ==> w.seed == SeedAt(c, i, |w.tried|))
    && (forall k | 0 <= k < |w.tried| && (k + 1 < |w.tried| || w.status == Running) :: Misses(env, c, w.tried[k]))
    && (w.status.Found? ==>
          && w.tried != [] && w.status.solution == Attempt(env, c, w.tried[|w.tried| - 1])
          && StartsWithZeros(w.status.solution.hash, c.leadingZeroLen))
  }

  ghost predicate AnyFound(ws: seq<Worker>) {
    exists i :: 0 <= i < |ws| && ws[i].status.Found?
  }

  ghost predicate Progressions(env: Env, c: Call, ws: seq<Worker>) {
    forall i | 0 <= i < |ws| :: WorkerOk(env, c, i, ws[i])
  }

  /** The found flag is set exactly while one worker, and only one, has a solution; a worker stopped
      only because of the flag or the token. */
  ghost predicate Verdicts(ws: seq<Worker>, found: bool) {
    && (found <==> AnyFound(ws))
    && (forall i, j | 0 <= i < j < |ws| :: !(ws[i].status.Found? && ws[j].status.Found?))
    && (forall i | 0 <= i < |ws| && ws[i].status.Stopped? :: ws[i].status.sawCancel || found)
  }

  ghost predicate Joining(c: Call, s: State) {
    && |s.workers| <= c.threadCount && s.joined <= |s.workers|
    && (s.counted ==> |s.workers| < c.threadCount)
    && (forall i | 0 <= i < s.joined :: s.workers[i].status.Stopped?)
    && s.isRunning == (s.result == None)
    && match s.result
       case None => true
       case Some(None) => |s.workers| == c.threadCount == s.joined
       case Some(Some(p)) =>
         |s.workers| == c.threadCount && s.joined < |s.workers| && s.workers[s.joined].status == Found(p)
  }

  ghost predicate SolveInv(env: Env, c: Call, s: State) {
    && Progressions(env, c, s.workers)
    && Verdicts(s.workers, s.found)
    && s.counter == s.stale + Live(s.workers) + (if s.counted then 1 else 0)
    && Joining(c, s)
  }

  lemma {:induction false} LiveUpdate(ws: seq<Worker>, i: nat, w: Worker)
    requires i < |ws| && ws[i].status == Running
    ensures Live(ws[i := w]) == Live(ws) - (if w.status == Running then 0 else 1)
    ensures Live(ws) >= 1
  {
    var init := ws[..|ws| - 1];
    if i == |ws| - 1 {
      assert ws[i := w][..|ws| - 1] == init;
    } else {
      assert ws[i := w][..|ws| - 1] == init[i := w];
      LiveUpdate(init, i, w);
    }
  }

  lemma SpawnKeeps(env: Env, c: Call, s: State, s': State)
    requires SolveInv(env, c, s) && Spawn(c, s, s')
    ensures SolveInv(env, c, s')
  {
    assert s'.workers[..|s'.workers| - 1] == s.workers;
    SpawnVerdicts(s.workers, s.found, s'.workers[|s.workers|]);
  }

  lemma SpawnVerdicts(ws: seq<Worker>, found: bool, w: Worker)
    requires Verdicts(ws, found) && w.status == Running
    ensures Verdicts(ws + [w], found)
  {
    if AnyFound(ws) {
      var i :| 0 <= i < |ws| && ws[i].status.Found?;
      assert (ws + [w])[i].status.Found?;
    }
  }

  /** A running worker moves on, stops, or is the first to find a solution. */
  lemma IterateVerdicts(ws: seq<Worker>, found: bool, i: nat, w: Worker, found': bool)
    requires Verdicts(ws, found) && i < |ws| && ws[i].status == Running
    requires w.status.Found? ==> !found && found'
    requires !w.status.Found? ==> found' == found
    requires w.status.Stopped? ==> w.status.sawCancel || found
    ensures Verdicts(ws[i := w], found')
  {
    var ws' := ws[i := w];
    if AnyFound(ws) {
      var j :| 0 <= j < |ws| && ws[j].status.Found?;
      assert ws'[j].status.Found?;
    }
    assert w.status.Found? ==> forall j | 0 <= j < |ws| :: !ws[j].status.Found?;
    if w.status.Found? {
      assert ws'[i].status.Found?;
    }
  }

  lemma IterateProgressions(env: Env, c: Call, s: State, i: nat, s': State)
    requires Progressions(env, c, s.workers) && Iterate(env, c, s, i, s')
    ensures Progressions(env, c, s'.workers)
  {
    var k := |s.workers[i].tried|;
    assert WorkerOk(env, c, i, s.workers[i]);
    assert (k + 1) * c.threadCount == k * c.threadCount + c.threadCount;
    ZerosExactly(Attempt(env, c, s.workers[i].seed).hash, c.leadingZeroLen);
  }

  lemma IterateKeeps(env: Env, c: Call, s: State, i: nat, s': State)
    requires SolveInv(env, c, s) && Iterate(env, c, s, i, s')
    ensures SolveInv(env, c, s')
  {
    IterateProgressions(env, c, s, i, s');
    LiveUpdate(s.workers, i, s'.workers[i]);
    IterateVerdicts(s.workers, s.found, i, s'.workers[i], s'.found);
  }

  lemma JoinKeeps(env: Env, c: Call, s: State, s': State)
    requires SolveInv(env, c, s) && Join(c, s, s')
    ensures SolveInv(env, c, s')
  {
  }

  lemma StepKeeps(env: Env, c: Call, s: State, s': State)
    requires SolveInv(env, c, s) && SolveStep(env, c, s, s')
    ensures SolveInv(env, c, s')
  {
    if Spawn(c, s, s') {
      SpawnKeeps(env, c, s, s');
    } else if exists i: nat :: Iterate(env, c, s, i, s') {
      var i: nat :| Iterate(env, c, s, i, s');
      IterateKeeps(env, c, s, i, s');
    } else if Join(c, s, s') {
      JoinKeeps(env, c, s, s');
    }
  }

  lemma NextCallKeeps(env: Env, c: Call, s: State, c': Call, s': State)
    requires SolveInv(env, c, s) && NextCall(s, s')
    ensures SolveInv(env, c', s')
  {
  }

  // ----- every run -----

  /** One miner object from its creation on: calls follow one another, and `calls[i]` is the one that
      state `i` belongs to. */
  ghost predicate SolveRun(env: Env, calls: seq<Call>, states: seq<State>) {
    && states != [] && |calls| == |states| && (exists b: bool :: states[0] == Start(b, 0, 0))
    && forall i: nat {:trigger SolveStepAt(env, calls, states, i)} | i + 1 < |states| ::
         SolveStepAt(env, calls, states, i)
  }

  ghost predicate SolveStepAt(env: Env, calls: seq<Call>, states: seq<State>, i: nat)
    requires i + 1 < |states| == |calls|
  {
    || (calls[i + 1] == calls[i] && SolveStep(env, calls[i], states[i], states[i + 1]))
    || NextCall(states[i], states[i + 1])
  }

  lemma {:induction false} SolveRunKeeps(env: Env, calls: seq<Call>, states: seq<State>, i: nat)
    requires SolveRun(env, calls, states) && i < |states|
    ensures SolveInv(env, calls[i], states[i])
  {
    if i > 0 {
      SolveRunKeeps(env, calls, states, i - 1);
      NextKeeps(env, calls, states, i - 1);
    }
  }

  lemma NextKeeps(env: Env, calls: seq<Call>, states: seq<State>, i: nat)
    requires SolveRun(env, calls, states) && i + 1 < |states| && SolveInv(env, calls[i], states[i])
    ensures SolveInv(env, calls[i + 1], states[i + 1])
  {
    assert SolveStepAt(env, calls, states, i);
    AnyStepKeeps(env, calls[i], states[i], calls[i + 1], states[i + 1]);
  }

  lemma AnyStepKeeps(env: Env, c: Call, s: State, c': Call, s': State)
    requires SolveInv(env, c, s) && ((c' == c && SolveStep(env, c, s, s')) || NextCall(s, s'))
    ensures SolveInv(env, c', s')
  {
    if NextCall(s, s') {
      NextCallKeeps(env, c, s, c', s');
    } else {
      StepKeeps(env, c, s, s');
    }
  }

  /** At every moment of every run, over all calls, the counter is the number of live workers, those of
      earlier calls included, plus one that is counted and about to start; at most one worker of a call
      has a solution; and the miner is running until the call returns. */
  lemma CountsAndSolutions(env: Env, calls: seq<Call>, states: seq<State>, i: nat)
    requires SolveRun(env, calls, states) && i < |states|
    ensures states[i].counter == states[i].stale + Live(states[i].workers) + (if states[i].counted then 1 else 0)
    ensures forall j, k | 0 <= j < k < |states[i].workers| ::
              !(states[i].workers[j].status.Found? && states[i].workers[k].status.Found?)
    ensures states[i].isRunning <==> states[i].result == None
  {
    SolveRunKeeps(env, calls, states, i);
  }

  /** At every moment, what worker `j` has hashed: the nonces of its own progression of seeds, from the first on
      and without a gap. None of them solves the puzzle, the last of a worker that has ended excepted. */
  lemma SeedsTried(env: Env, calls: seq<Call>, states: seq<State>, i: nat, j: nat, k: nat)
    requires SolveRun(env, calls, states) && i < |states|
    requires j < |states[i].workers| && k < |states[i].workers[j].tried|
    ensures var c, w := calls[i], states[i].workers[j];
            && w.tried[k] == c.seed0 + j + k * c.threadCount
            && (w.status == Running || k + 1 < |w.tried| ==>
                  !(seq(c.leadingZeroLen, _ => '0') <= env.sha256(env.nonceFor(w.tried[k], c.nonceLen) + c.puzzle)))
  {
    SolveRunKeeps(env, calls, states, i);
    assert WorkerOk(env, calls[i], j, states[i].workers[j]);
    assert states[i].workers[j].status == Running || k + 1 < |states[i].workers[j].tried| ==>
        Misses(env, calls[i], states[i].workers[j].tried[k]);
  }

  /** In every run, what becomes of a worker that hashes its next seed: it stops if the token is set or another
      worker has found a solution, and otherwise ends with a solution if and only if its nonce solves the puzzle. */
  lemma IterationExactly(env: Env, calls: seq<Call>, states: seq<State>, i: nat, j: nat)
    requires SolveRun(env, calls, states) && i + 1 < |states|
    requires j < |states[i].workers| && j < |states[i + 1].workers|
    requires states[i + 1].workers[j].tried != states[i].workers[j].tried
    ensures var c, s, w, w' := calls[i], states[i], states[i].workers[j], states[i + 1].workers[j];
            var nonce := env.nonceFor(w.seed, c.nonceLen);
            var solves := seq(c.leadingZeroLen, _ => '0') <= env.sha256(nonce + c.puzzle);
            && calls[i + 1] == c && w'.tried == w.tried + [w.seed]
            && (w'.status.Stopped? <==> s.cancel || AnyFound(s.workers))
            && (w'.status.Found? <==> !s.cancel && !AnyFound(s.workers) && solves)
            && (w'.status.Found? ==>
                  w'.status.solution == PuzzleSolution(c.puzzle, nonce, env.sha256(nonce + c.puzzle)))
  {
    SolveRunKeeps(env, calls, states, i);
    assert SolveStepAt(env, calls, states, i);
    ZerosExactly(Attempt(env, calls[i], states[i].workers[j].seed).hash, calls[i].leadingZeroLen);
    MovedWorker(env, calls[i], states[i], j, states[i + 1]);
  }

  lemma MovedWorker(env: Env, c: Call, s: State, j: nat, s': State)
    requires SolveStep(env, c, s, s') && j < |s.workers| && j < |s'.workers|
    requires s'.workers[j].tried != s.workers[j].tried
    ensures Iterate(env, c, s, j, s')
  {
    assert !Spawn(c, s, s') && !Count(c, s, s') && !EndStale(s, s') && !SetToken(s, s') && !Join(c, s, s');
    var i: nat :| Iterate(env, c, s, i, s');
    assert i == j;
  }

  /** When a call has returned: it gives a solution exactly if some worker found one; that solution is the
      nonce of the last seed this worker tried, with its hash, and meets the difficulty; and it gives none
      only if every worker saw the cancellation. */
  lemma ReturnedResult(env: Env, calls: seq<Call>, states: seq<State>, i: nat)
    requires SolveRun(env, calls, states) && i < |states| && states[i].result.Some?
    ensures states[i].result.value.Some? <==> AnyFound(states[i].workers)
    ensures states[i].result.value.Some? ==>
              var c, solution := calls[i], states[i].result.value.value;
              && solution.puzzle == c.puzzle && solution.hash == env.sha256(solution.nonce + c.puzzle)
              && seq(c.leadingZeroLen, _ => '0') <= solution.hash
              && exists j :: 0 <= j < |states[i].workers| && NonceOf(env, c, states[i].workers[j], solution.nonce)
    ensures states[i].result.value.None? ==>
              |states[i].workers| == calls[i].threadCount
              && forall j | 0 <= j < calls[i].threadCount :: states[i].workers[j].status == Stopped(true)
  {
    SolveRunKeeps(env, calls, states, i);
    var s := states[i];
    if s.result.value.Some? {
      var w := s.workers[s.joined];
      assert WorkerOk(env, calls[i], s.joined, w);
      assert NonceOf(env, calls[i], w, s.result.value.value.nonce);
      ZerosExactly(s.result.value.value.hash, calls[i].leadingZeroLen);
    }
  }

  /** The nonce that the last seed the worker tried gives. */
  ghost predicate NonceOf(env: Env, c: Call, w: Worker, nonce: string) {
    w.tried != [] && nonce == env.nonceFor(w.tried[|w.tried| - 1], c.nonceLen)
  }

  /** A call may return while workers of it still run: with two workers, the first to be joined finds a
      solution and the second has not noticed yet. The next call then starts with a count of one. */
  lemma WorkersOutliveCall(env: Env, c: Call, c': Call) returns (calls: seq<Call>, states: seq<State>)
    requires c.threadCount == 2
    requires StartsWithZeros(Attempt(env, c, c.seed0).hash, c.leadingZeroLen)
    ensures SolveRun(env, calls, states)
    ensures calls[|calls| - 1] == c'
    ensures states[|states| - 1] == Start(false, 1, 1)
  {
    var s0 := Start(false, 0, 0);
    var s1 := s0.(counted := true, counter := 1);
    var s2 := s1.(workers := [Worker(c.seed0, [], Running)], counted := false);
    var s3 := s2.(counted := true, counter := 2);
    var s4 := s3.(workers := s2.workers + [Worker(c.seed0 + 1, [], Running)], counted := false);
    var done := Worker(c.seed0, [c.seed0], Found(Attempt(env, c, c.seed0)));
    var s5 := s4.(workers := [done, Worker(c.seed0 + 1, [], Running)], found := true, counter := 1);
    var s6 := s5.(isRunning := false, result := Some(Some(done.status.solution)));
    var s7 := Start(false, 1, 1);
    assert Spawn(c, s1, s2) && Spawn(c, s3, s4);
    assert Iterate(env, c, s4, 0, s5) by {
      assert s4.workers[0].tried + [c.seed0] == done.tried;
      assert s4.workers[0 := done] == s5.workers;
    }
    assert Join(c, s5, s6);
    assert NextCall(s6, s7) by {
      assert s6.workers[..1] == [done] && s6.workers[..1][..0] == [];
      assert Live([done]) == 0 by { assert [done][..0] == []; }
    }
    calls, states := [c, c, c, c, c, c, c, c'], [s0, s1, s2, s3, s4, s5, s6, s7];
    forall i: nat | i + 1 < |states| ensures SolveStepAt(env, calls, states, i) {
    }
  }

  // ----- the seeds are partitioned -----

  lemma ProgressionsDisjoint(c: Call, i: nat, j: nat, k: nat, l: nat)
    requires i < c.threadCount && j < c.threadCount && SeedAt(c, i, k) == SeedAt(c, j, l)
    ensures i == j && k == l
  {
    var n := c.threadCount;
    assert (k - l) * n == k * n - l * n;
    MulAtLeast(n, k - l);
  }

  /** Within a call no seed is tried twice, not by one worker nor by two. */
  lemma NoSeedTwice(env: Env, calls: seq<Call>, states: seq<State>, t: nat, i: nat, j: nat, k: nat, l: nat)
    requires SolveRun(env, calls, states) && t < |states|
    requires i < |states[t].workers| && j < |states[t].workers|
    requires k < |states[t].workers[i].tried| && l < |states[t].workers[j].tried|
    requires states[t].workers[i].tried[k] == states[t].workers[j].tried[l]
    ensures i == j && k == l
  {
    SolveRunKeeps(env, calls, states, t);
    assert WorkerOk(env, calls[t], i, states[t].workers[i]) && WorkerOk(env, calls[t], j, states[t].workers[j]);
    ProgressionsDisjoint(calls[t], i, j, k, l);
  }

  lemma SeedQuotient(c: Call, seed: nat) returns (i: nat, k: nat)
    requires c.threadCount > 0 && seed >= c.seed0
    ensures i < c.threadCount && seed == SeedAt(c, i, k)
  {
    i, k := (seed - c.seed0) % c.threadCount, (seed - c.seed0) / c.threadCount;
    assert seed - c.seed0 == k * c.threadCount + i;
  }

  /** And none is left out: every seed from `seed0` on belongs to the progression of exactly one
      worker, at exactly one position. */
  lemma EverySeedHasAWorker(c: Call, seed: nat) returns (i: nat, k: nat)
    requires c.threadCount > 0 && seed >= c.seed0
    ensures i < c.threadCount && seed == SeedAt(c, i, k)
    ensures forall i': nat, k': nat | i' < c.threadCount && seed == SeedAt(c, i', k') :: i' == i && k' == k
  {
    i, k := SeedQuotient(c, seed);
    forall i': nat, k': nat | i' < c.threadCount && seed == SeedAt(c, i', k') ensures i' == i && k' == k {
      ProgressionsDisjoint(c, i, i', k, k');
    }
  }
}
