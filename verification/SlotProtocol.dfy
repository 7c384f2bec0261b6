/** The worker pool as a step relation.

    The parent and its forked children share one table with a slot per job worker.  Every event below
    is one atomic access of a shared word, or one action of the kernel, so a sequence of events is one
    interleaving of the parent's code with the code of all its children.  Slots are counted from 0
    here; the program adds SHM_SHIFT to skip the counters that stand in front of them.

    A disabled event leaves the state alone, so every sequence of events is a run. */
module SlotProtocol {

  // A slot holds FREE, RESERVED, -pid (idle) or pid (working).
  const FREE := -1
  const RESERVED := 1

  /** Where a child is in worker_client.c. Everything from ExitReadPid on belongs to its exit. */
  datatype ChildPC =
    | Born          // forked, about to write its negated pid
    | Idle          // in worker_loop
    | Working       // has announced a job
    | EndReadFree   // set_state(GM_JOB_END): about to compare its slot with -1
    | EndReadPid    // about to compare its slot with its pid
    | EndReadNeg    // about to compare its slot with its negated pid
    | EndWrite      // about to announce that it is idle again
    | SlotLost      // the "status slot changed to -1" branch
    | DoubleUsed    // the "double used worker slot" branch
    | ExitReadPid   // clean_worker_exit: about to compare its slot with its pid
    | ExitReadNeg   // about to compare its slot with its negated pid
    | ExitClear     // found itself, about to free the slot
    | ExitDone      // about to call _exit
    | Zombie        // dead, but its parent has not waited for it
    | Reaped        // dead and gone

  datatype Child = Child(slot: nat, pc: ChildPC)

  /** A living child that has written its slot and has not begun its exit. */
  predicate Serving(pc: ChildPC) {
    pc in {Idle, Working, EndReadFree, EndReadPid, EndReadNeg, EndWrite, SlotLost, DoubleUsed}
  }

  predicate Dead(pc: ChildPC) {
    pc == Zombie || pc == Reaped
  }

  /** Where make_new_child returns to. */
  datatype ReturnTo =
    | ToStartUp(k: nat)
    | ToCount(x: nat)
    | ToMinimum(n: int)
    | ToTopUp(n: int, target: int)

  /** Where the parent is in worker.c. */
  datatype ParentPC =
    | StartUp(k: nat)                            // main: the first min_worker children
    | Sleeping                                   // monitor_loop
    | Reaping(restart: bool)                     // the waitpid loop, then count_current_worker(restart)
    | CountStart(restart: bool)                  // about to zero the counters
    | CountStale(x: nat, restart: bool)          // count_current_worker: about to compare slot x with -1
    | CountAlive(x: nat, restart: bool)          // about to read slot x for pid_alive
    | CountReclaim(x: nat, restart: bool)        // about to free slot x
    | CountUsed(x: nat, restart: bool)           // about to compare slot x with -1 again
    | CountBusy(x: nat, restart: bool)           // about to compare slot x with 0
    | CheckAge                                   // about to look at the time of the last check
    | KillRead(x: nat)                           // forced restart: about to send SIGKILL to slot x
    | KillClear(x: nat)                          // about to free slot x
    | Minimum(n: int)                            // keep up the minimum population
    | TopUpDecide                                // is it time to increase the population?
    | TopUp(n: int, target: int)
    | Scan(x: nat, ret: ReturnTo)                // get_next_shm_index: about to read slot x
    | Claim(x: nat, ret: ReturnTo)               // found slot x free, about to reserve it
    | Forking(idx: nat, ret: ReturnTo)           // about to fork
    | Announce(idx: nat, pid: int, ret: ReturnTo) // forked, about to write the negated pid
    | Made(ret: ReturnTo)                        // make_new_child has returned
    | Exhausted                                  // "unable to get next shm id"

  datatype Config = Config(minWorker: int, maxWorker: nat, spawnRate: int,
                           loadLimit1: real, loadLimit5: real, loadLimit15: real)

  datatype State = State(slots: seq<int>, procs: map<int, Child>, workers: int, jobs: int,
                         parent: ParentPC, now: int, lastCheck: int, lastIncreased: int)

  /** What the system answers to one parent step: the clock, the load and the result of fork. */
  datatype Env = Env(time: int, fork: int, load1: real, load5: real, load15: real, stopping: bool)

  datatype Event =
    | Parent(env: Env)
    | ChildStep(pid: int, leave: bool)  // the next statement; `leave` picks between staying and leaving
    | Interrupt(pid: int)               // a signal whose handler is clean_worker_exit
    | Crash(pid: int)                   // any other death, at any point

  // ---------------------------------------------------------------- options and start

  /** The clamp of verify_options. */
  function VerifyLimits(min: int, max: int): (r: (int, int))
    ensures r.0 <= r.1 && r.1 == max
  {
    if min > max then (max, max) else (min, max)
  }

  ghost predicate Verified(c: Config) {
    c.minWorker <= c.maxWorker
  }

  function Init(c: Config, now: int): (s: State) {
    State(seq(c.maxWorker, _ => FREE), map[], 0, 0, StartUp(0), now, now, 0)
  }

  // ---------------------------------------------------------------- the children

  function SetPC(s: State, p: int, pc: ChildPC): State
    requires p in s.procs
  {
    s.(procs := s.procs[p := s.procs[p].(pc := pc)])
  }

  function SetSlot(s: State, i: nat, v: int): State
    requires i < |s.slots|
  {
    s.(slots := s.slots[i := v])
  }

  /** One statement of child `p`. */
  function ChildNext(s: State, p: int, leave: bool, time: int): State
    requires p in s.procs && s.procs[p].slot < |s.slots|
  {
    var i := s.procs[p].slot;
    match s.procs[p].pc
    case Born => SetPC(SetSlot(s, i, -p), p, Idle)
    case Idle => if leave then SetPC(s, p, ExitReadPid) else SetPC(SetSlot(s, i, p), p, Working)
    // a job without usable data ends without set_state(GM_JOB_END)
    case Working => if leave then SetPC(s, p, Idle) else SetPC(s.(lastCheck := time), p, EndReadFree)
    case EndReadFree => SetPC(s, p, if s.slots[i] == FREE then SlotLost else EndReadPid)
    case EndReadPid => SetPC(s, p, if s.slots[i] == p then EndWrite else EndReadNeg)
    case EndReadNeg => SetPC(s, p, if s.slots[i] == -p then EndWrite else DoubleUsed)
    case EndWrite => SetPC(SetSlot(s, i, -p), p, Idle)
    case SlotLost => SetPC(s, p, ExitReadPid)
    case DoubleUsed => SetPC(s, p, ExitReadPid)
    case ExitReadPid => SetPC(s, p, if s.slots[i] == p then ExitClear else ExitReadNeg)
    case ExitReadNeg => SetPC(s, p, if s.slots[i] == -p then ExitClear else ExitDone)
    case ExitClear => SetPC(SetSlot(s, i, FREE), p, ExitDone)
    case ExitDone => SetPC(s, p, Zombie)
    case Zombie => s
    case Reaped => s
  }

  // ---------------------------------------------------------------- the parent

  function Abs(v: int): nat {
    if v < 0 then -v else v
  }

  /** pid_alive: a zombie still answers kill(pid, 0); 1 and -1 are nobody. */
  predicate Alive(procs: map<int, Child>, v: int) {
    Abs(v) != 1 && Abs(v) in procs && procs[Abs(v)].pc != Reaped
  }

  /** save_kill(v, SIGKILL), which takes effect at once. */
  function Kill(s: State, v: int): State {
    if Abs(v) != 0 && Abs(v) != 1 && Abs(v) in s.procs && !Dead(s.procs[Abs(v)].pc)
    then SetPC(s, Abs(v), Zombie)
    else s
  }

  function Reap(procs: map<int, Child>): map<int, Child> {
    map p | p in procs :: if procs[p].pc == Zombie then procs[p].(pc := Reaped) else procs[p]
  }

  /** adjust_number_of_worker */
  function Adjust(c: Config, workers: int, jobs: int, env: Env): int {
    if workers == 0 then c.minWorker
    else if workers == c.maxWorker then c.maxWorker
    else if jobs > 0 && (jobs * 100 / workers > 90 || workers - jobs <= 2) then
      if (c.loadLimit1 > 0.0 && env.load1 >= c.loadLimit1)
         || (c.loadLimit5 > 0.0 && env.load5 >= c.loadLimit5)
         || (c.loadLimit15 > 0.0 && env.load15 >= c.loadLimit15)
      then workers
      else if workers + c.spawnRate > c.maxWorker then c.maxWorker
      else workers + c.spawnRate
    else if c.minWorker > c.maxWorker then c.maxWorker
    else c.minWorker
  }

  /** What the caller of make_new_child does next, whether or not the fork worked. */
  function Return(s: State, ret: ReturnTo): State {
    match ret
    case ToStartUp(k) => s.(parent := StartUp(k + 1))
    case ToCount(x) => s.(parent := CountUsed(x, true), workers := s.workers + 1)
    case ToMinimum(x) => s.(parent := Minimum(x + 1), workers := s.workers + 1)
    case ToTopUp(x, target) => s.(parent := TopUp(x + 1, target))
  }

  function CountNext(c: Config, s: State): State
    requires |s.slots| == c.maxWorker && Counting(s.parent)
  {
    match s.parent
    case CountStale(x, restart) =>
      if x >= c.maxWorker then s.(parent := if restart then CheckAge else Sleeping)
      else s.(parent := if s.slots[x] != FREE then CountAlive(x, restart) else CountUsed(x, restart))
    case CountAlive(x, restart) =>
      if x >= c.maxWorker then s
      else s.(parent := if Alive(s.procs, s.slots[x]) then CountUsed(x, restart) else CountReclaim(x, restart))
    case CountReclaim(x, restart) =>
      if x >= c.maxWorker then s
      else SetSlot(s, x, FREE).(parent := if restart then Scan(0, ToCount(x)) else CountUsed(x, restart))
    case CountUsed(x, restart) =>
      if x >= c.maxWorker then s
      else s.(parent := CountBusy(x, restart),
              workers := if s.slots[x] != FREE then s.workers + 1 else s.workers)
    case CountBusy(x, restart) =>
      if x >= c.maxWorker then s
      else s.(parent := CountStale(x + 1, restart),
              jobs := if s.slots[x] > 0 then s.jobs + 1 else s.jobs)
  }

  function MakeChildNext(c: Config, s: State, env: Env): State
    requires |s.slots| == c.maxWorker && Making(s.parent)
  {
    match s.parent
    case Scan(x, ret) =>
      if x >= c.maxWorker then s.(parent := Exhausted)
      else s.(parent := if s.slots[x] == FREE then Claim(x, ret) else Scan(x + 1, ret))
    case Claim(x, ret) =>
      if x >= c.maxWorker then s else SetSlot(s, x, RESERVED).(parent := Forking(x, ret))
    case Forking(idx, ret) =>
      if idx >= c.maxWorker then s
      else if env.fork < 2 || env.fork in s.procs then s.(parent := Made(ret))
      else s.(procs := s.procs[env.fork := Child(idx, Born)], parent := Announce(idx, env.fork, ret))
    case Announce(idx, pid, ret) =>
      if idx >= c.maxWorker then s else SetSlot(s, idx, -pid).(parent := Made(ret))
    case Made(ret) => Return(s, ret)
  }

  predicate Counting(pc: ParentPC) {
    pc.CountStale? || pc.CountAlive? || pc.CountReclaim? || pc.CountUsed? || pc.CountBusy?
  }

  predicate Making(pc: ParentPC) {
    pc.Scan? || pc.Claim? || pc.Forking? || pc.Announce? || pc.Made?
  }

  function ParentNext(c: Config, s: State, env: Env): (t: State)
    requires WellFormed(c, s)
    ensures WellFormed(c, t)
  {
    if Counting(s.parent) then CountNext(c, s)
    else if Making(s.parent) then MakeChildNext(c, s, env)
    else PopulationNext(c, s, env)
  }

  function PopulationNext(c: Config, s: State, env: Env): (t: State)
    requires WellFormed(c, s) && !Counting(s.parent) && !Making(s.parent)
    ensures WellFormed(c, t)
  {
    match s.parent
    case StartUp(k) => s.(parent := if k < c.minWorker then Scan(0, ToStartUp(k)) else Sleeping)
    case Sleeping =>
      // stop_children counts without restarting anybody
      if env.stopping then s.(parent := Reaping(false)) else s.(parent := Reaping(true), now := env.time)
    case Reaping(restart) => s.(procs := Reap(s.procs), parent := CountStart(restart))
    case CountStart(restart) => s.(parent := CountStale(0, restart), workers := 0, jobs := 0)
    case CheckAge =>
      if s.lastCheck < s.now - 120 then s.(lastCheck := s.now, parent := KillRead(0))
      else s.(parent := Minimum(s.workers))
    case KillRead(x) =>
      if x >= c.maxWorker then s.(parent := Minimum(s.workers))
      else Kill(s, s.slots[x]).(parent := KillClear(x))
    case KillClear(x) =>
      if x >= c.maxWorker then s else SetSlot(s, x, FREE).(parent := KillRead(x + 1))
    case Minimum(x) => s.(parent := if x < c.minWorker then Scan(0, ToMinimum(x)) else TopUpDecide)
    case TopUpDecide =>
      s.(parent := if s.lastIncreased >= s.now then Sleeping
                   else TopUp(s.workers, Adjust(c, s.workers, s.jobs, env)))
    case TopUp(x, target) =>
      if x < target then s.(lastIncreased := s.now, parent := Scan(0, ToTopUp(x, target)))
      else s.(parent := Sleeping)
    case Exhausted => s
  }

  // ---------------------------------------------------------------- runs

  predicate ProcsOk(procs: map<int, Child>, n: nat) {
    forall p | p in procs :: p >= 2 && procs[p].slot < n
  }

  predicate WellFormed(c: Config, s: State) {
    |s.slots| == c.maxWorker && ProcsOk(s.procs, c.maxWorker)
  }

  function Next(c: Config, s: State, e: Event, time: int): (t: State)
    requires WellFormed(c, s)
    ensures WellFormed(c, t)
  {
    match e
    case Parent(env) => ParentNext(c, s, env)
    case ChildStep(p, leave) => if p in s.procs then ChildNext(s, p, leave, time) else s
    case Interrupt(p) =>
      // the handler is set after the child's first write and may interrupt itself
      if p in s.procs && s.procs[p].pc != Born && !Dead(s.procs[p].pc) then SetPC(s, p, ExitReadPid) else s
    case Crash(p) => if p in s.procs && !Dead(s.procs[p].pc) then SetPC(s, p, Zombie) else s
  }

  /** A run is a sequence of events, each with the time at which it happens. */
  function Run(c: Config, s: State, es: seq<(Event, int)>): (r: State)
    requires WellFormed(c, s)
    ensures WellFormed(c, r)
    decreases |es|
  {
    if es == [] then s else Run(c, Next(c, s, es[0].0, es[0].1), es[1..])
  }

  // ---------------------------------------------------------------- the invariant

  /** What slot `i` may hold: nobody, a reservation, or a child that was given this slot. */
  predicate HolderOk(procs: map<int, Child>, i: nat, v: int) {
    v == FREE || v == RESERVED || (Abs(v) in procs && procs[Abs(v)].slot == i)
  }

  ghost predicate HoldersOk(slots: seq<int>, procs: map<int, Child>) {
    forall i | 0 <= i < |slots| :: HolderOk(procs, i, slots[i])
  }

  predicate Mine(s: State, p: int)
    requires p in s.procs && s.procs[p].slot < |s.slots|
  {
    Holds(s.slots, s.procs, p)
  }

  predicate Holds(slots: seq<int>, procs: map<int, Child>, p: int)
    requires p in procs && procs[p].slot < |slots|
  {
    slots[procs[p].slot] == p || slots[procs[p].slot] == -p
  }

  /** The child whose pid the parent has not written yet, or 0. */
  function Announced(parent: ParentPC): int {
    if parent.Announce? then parent.pid else 0
  }

  ghost predicate ChildOk(slots: seq<int>, procs: map<int, Child>, announced: int, p: int)
    requires p in procs && procs[p].slot < |slots|
  {
    var pc := procs[p].pc;
    && pc != SlotLost
    && pc != DoubleUsed
    && (Serving(pc) || pc == ExitClear ==> Holds(slots, procs, p))
    && (pc == EndReadNeg ==> slots[procs[p].slot] == -p)
    && (pc == Born ==> slots[procs[p].slot] == -p || (announced == p && slots[procs[p].slot] == RESERVED))
  }

  ghost predicate ChildrenOk(slots: seq<int>, procs: map<int, Child>, announced: int) {
    forall p | p in procs :: procs[p].slot < |slots| && ChildOk(slots, procs, announced, p)
  }

  /** A slot with value `v` holds no living child. */
  predicate Abandoned(procs: map<int, Child>, v: int) {
    v == FREE || v == RESERVED || (Abs(v) in procs && Dead(procs[Abs(v)].pc))
  }

  ghost predicate ParentOk(c: Config, s: State)
    requires WellFormed(c, s)
  {
    match s.parent
    case CountAlive(x, _) => x < c.maxWorker
    case CountReclaim(x, _) => x < c.maxWorker && Abandoned(s.procs, s.slots[x])
    case CountUsed(x, _) => x < c.maxWorker
    case CountBusy(x, _) => x < c.maxWorker
    case KillClear(x) => x < c.maxWorker && Abandoned(s.procs, s.slots[x])
    case Scan(x, ret) => exists i :: x <= i < c.maxWorker && s.slots[i] == FREE
    case Claim(x, ret) => x < c.maxWorker && s.slots[x] == FREE
    case Forking(idx, ret) => idx < c.maxWorker && s.slots[idx] == RESERVED
    case Announce(idx, pid, ret) =>
      && pid in s.procs && s.procs[pid].slot == idx
      && (s.slots[idx] == RESERVED || s.slots[idx] == FREE || Mine(s, pid))
    case Exhausted => false
    case _ => true
  }

  /** The number of used slots among the first `n`. */
  function Used(slots: seq<int>, n: nat): nat
    requires n <= |slots|
  {
    if n == 0 then 0 else Used(slots, n - 1) + if slots[n - 1] != FREE then 1 else 0
  }

  /** The table with the slot of a child in the making counted as used. */
  function Held(s: State): (h: seq<int>)
    ensures |h| == |s.slots|
  {
    if s.parent.Announce? && s.parent.idx < |s.slots| then s.slots[s.parent.idx := RESERVED] else s.slots
  }

  /** `extra` is what make_new_child has claimed but its caller has not counted yet. */
  ghost predicate ReturnBudget(c: Config, s: State, ret: ReturnTo, extra: nat)
    requires |s.slots| == c.maxWorker
  {
    var used := Used(Held(s), c.maxWorker);
    match ret
    case ToStartUp(k) => k < c.minWorker && used <= k + extra
    case ToCount(x) => x < c.maxWorker && Used(Held(s), x) <= s.workers + extra
    case ToMinimum(x) => x < c.minWorker && x == s.workers && used <= x + extra
    case ToTopUp(x, target) => x < target <= c.maxWorker && used <= x + extra
  }

  /** The count is never below the number of used slots. */
  ghost predicate Budget(c: Config, s: State)
    requires |s.slots| == c.maxWorker
  {
    var used := Used(Held(s), c.maxWorker);
    match s.parent
    case StartUp(k) => used <= k
    case CountStale(x, _) => x <= c.maxWorker && Used(s.slots, x) <= s.workers
    case CountAlive(x, _) => x < c.maxWorker && Used(s.slots, x) <= s.workers
    case CountReclaim(x, _) => x < c.maxWorker && Used(s.slots, x) <= s.workers
    case CountUsed(x, _) => x < c.maxWorker && Used(s.slots, x) <= s.workers
    case CountBusy(x, _) => x < c.maxWorker && Used(s.slots, x + 1) <= s.workers
    case CheckAge => used <= s.workers
    case KillRead(_) => used <= s.workers
    case KillClear(_) => used <= s.workers
    case Minimum(x) => x == s.workers && used <= x
    case TopUpDecide => used <= s.workers
    case TopUp(x, target) => used <= x && (x < target ==> target <= c.maxWorker)
    case Scan(_, ret) => ReturnBudget(c, s, ret, 0)
    case Claim(_, ret) => ReturnBudget(c, s, ret, 0)
    case Forking(_, ret) => ReturnBudget(c, s, ret, 1)
    case Announce(_, _, ret) => ReturnBudget(c, s, ret, 1)
    case Made(ret) => ReturnBudget(c, s, ret, 1)
    case _ => true
  }

  ghost predicate Inv(c: Config, s: State) {
    && WellFormed(c, s)
    && HoldersOk(s.slots, s.procs)
    && ChildrenOk(s.slots, s.procs, Announced(s.parent))
    && ParentOk(c, s)
    && Budget(c, s)
  }

  // ---------------------------------------------------------------- counting used slots

  lemma {:induction false} UsedMono(a: seq<int>, b: seq<int>, n: nat)
    requires n <= |a| && n <= |b|
    requires forall i | 0 <= i < n :: b[i] != FREE ==> a[i] != FREE
    ensures Used(b, n) <= Used(a, n)
  {
    if n > 0 { UsedMono(a, b, n - 1); }
  }

  lemma {:induction false} UsedPut(a: seq<int>, i: nat, v: int, n: nat)
    requires n <= |a| && i < |a|
    ensures Used(a[i := v], n) <= Used(a, n) + 1
    ensures i >= n ==> Used(a[i := v], n) == Used(a, n)
    ensures i < n && a[i] == FREE && v != FREE ==> Used(a[i := v], n) == Used(a, n) + 1
    ensures (a[i] == FREE <==> v == FREE) ==> Used(a[i := v], n) == Used(a, n)
  {
    if n > 0 { UsedPut(a, i, v, n - 1); }
  }

  /** Pigeonhole: a table that is not full has a free slot. */
  lemma {:induction false} FreeSlotExists(a: seq<int>, n: nat)
    requires n <= |a| && Used(a, n) < n
    ensures exists i :: 0 <= i < n && a[i] == FREE
  {
    if a[n - 1] != FREE { FreeSlotExists(a, n - 1); }
  }

  lemma {:induction false} NoneUsed(n: nat, k: nat)
    requires k <= n
    ensures Used(seq(n, _ => FREE), k) == 0
  {
    if k > 0 { NoneUsed(n, k - 1); }
  }

  lemma {:induction false} UsedAtMost(a: seq<int>, n: nat, m: nat)
    requires n <= m <= |a|
    ensures Used(a, n) <= Used(a, m) <= Used(a, n) + (m - n)
    decreases m
  {
    if n < m { UsedAtMost(a, n, m - 1); }
  }

  // ---------------------------------------------------------------- slots and children, one write at a time

  /** Child `p` announces itself in the slot it owns or was just given, or frees it on its way out. */
  lemma AfterChildWrite(slots: seq<int>, procs: map<int, Child>, announced: int, p: int, v: int, pc: ChildPC)
    requires ProcsOk(procs, |slots|) && HoldersOk(slots, procs) && ChildrenOk(slots, procs, announced)
    requires p in procs && !Dead(procs[p].pc) && (Holds(slots, procs, p) || procs[p].pc == Born)
    requires (v == FREE && pc == ExitDone) || (Abs(v) == p && (pc == Idle || pc == Working))
    ensures var slots', procs' := slots[procs[p].slot := v], procs[p := procs[p].(pc := pc)];
            HoldersOk(slots', procs') && ChildrenOk(slots', procs', announced)
  {
    var slots', procs' := slots[procs[p].slot := v], procs[p := procs[p].(pc := pc)];
    assert ChildOk(slots, procs, announced, p);
    forall q | q in procs' ensures ChildOk(slots', procs', announced, q) {
      assert ChildOk(slots, procs, announced, q);
    }
  }

  /** Child `p` moves on without writing. */
  lemma AfterChildMove(slots: seq<int>, procs: map<int, Child>, announced: int, p: int, pc: ChildPC)
    requires ProcsOk(procs, |slots|) && HoldersOk(slots, procs) && ChildrenOk(slots, procs, announced)
    requires p in procs && ChildOk(slots, procs[p := procs[p].(pc := pc)], announced, p)
    ensures var procs' := procs[p := procs[p].(pc := pc)];
            HoldersOk(slots, procs') && ChildrenOk(slots, procs', announced)
  {
    var procs' := procs[p := procs[p].(pc := pc)];
    forall q | q in procs' ensures ChildOk(slots, procs', announced, q) {
      assert ChildOk(slots, procs, announced, q);
    }
  }

  /** The parent overwrites a slot that holds no living child. */
  lemma AfterParentWrite(slots: seq<int>, procs: map<int, Child>, x: nat, v: int)
    requires ProcsOk(procs, |slots|) && HoldersOk(slots, procs) && ChildrenOk(slots, procs, 0)
    requires x < |slots| && Abandoned(procs, slots[x]) && (v == FREE || v == RESERVED)
    ensures HoldersOk(slots[x := v], procs) && ChildrenOk(slots[x := v], procs, 0)
  {
    forall q | q in procs ensures ChildOk(slots[x := v], procs, 0, q) {
      assert ChildOk(slots, procs, 0, q);
    }
  }

  lemma AfterFork(slots: seq<int>, procs: map<int, Child>, idx: nat, pid: int)
    requires ProcsOk(procs, |slots|) && HoldersOk(slots, procs) && ChildrenOk(slots, procs, 0)
    requires idx < |slots| && slots[idx] == RESERVED && pid >= 2 && pid !in procs
    ensures var procs' := procs[pid := Child(idx, Born)];
            HoldersOk(slots, procs') && ChildrenOk(slots, procs', pid)
  {
    var procs' := procs[pid := Child(idx, Born)];
    forall q | q in procs' ensures ChildOk(slots, procs', pid, q) {
      if q != pid { assert ChildOk(slots, procs, 0, q); }
    }
  }

  lemma AfterAnnounce(slots: seq<int>, procs: map<int, Child>, idx: nat, pid: int)
    requires ProcsOk(procs, |slots|) && HoldersOk(slots, procs) && ChildrenOk(slots, procs, pid)
    requires pid in procs && procs[pid].slot == idx
    requires slots[idx] == RESERVED || slots[idx] == FREE || Holds(slots, procs, pid)
    ensures HoldersOk(slots[idx := -pid], procs) && ChildrenOk(slots[idx := -pid], procs, 0)
  {
    forall q | q in procs ensures ChildOk(slots[idx := -pid], procs, 0, q) {
      assert ChildOk(slots, procs, pid, q);
    }
  }

  lemma AfterReap(slots: seq<int>, procs: map<int, Child>)
    requires ProcsOk(procs, |slots|) && HoldersOk(slots, procs) && ChildrenOk(slots, procs, 0)
    ensures ProcsOk(Reap(procs), |slots|) && HoldersOk(slots, Reap(procs)) && ChildrenOk(slots, Reap(procs), 0)
  {
    forall q | q in Reap(procs) ensures ChildOk(slots, Reap(procs), 0, q) {
      assert ChildOk(slots, procs, 0, q);
    }
  }

  // ---------------------------------------------------------------- every step keeps the invariant

  lemma InitInv(c: Config, now: int)
    ensures Inv(c, Init(c, now))
  {
    NoneUsed(c.maxWorker, c.maxWorker);
  }

  /** A child never turns a free slot into a used one, so no count becomes too small. */
  lemma BudgetAfterChild(c: Config, s: State, t: State)
    requires Inv(c, s) && |t.slots| == |s.slots|
    requires t.parent == s.parent && t.workers == s.workers
    requires forall i | 0 <= i < c.maxWorker :: Held(t)[i] != FREE ==> Held(s)[i] != FREE
    ensures Budget(c, t)
  {
    forall n: nat | n <= c.maxWorker ensures Used(Held(t), n) <= Used(Held(s), n) {
      UsedMono(Held(s), Held(t), n);
    }
  }

  lemma ParentAfterChild(c: Config, s: State, t: State, p: int)
    requires Inv(c, s) && WellFormed(c, t) && t.parent == s.parent && p in s.procs
    requires p in t.procs && t.procs == s.procs[p := t.procs[p]] && t.procs[p].slot == s.procs[p].slot
    requires Dead(s.procs[p].pc) ==> Dead(t.procs[p].pc)
    requires t.slots == s.slots
             || (t.slots == s.slots[s.procs[p].slot := t.slots[s.procs[p].slot]] && !Dead(s.procs[p].pc)
                 && t.slots[s.procs[p].slot] in {FREE, p, -p}
                 && (Mine(s, p) || (s.slots[s.procs[p].slot] == RESERVED && Announced(s.parent) == p)))
    ensures ParentOk(c, t)
  {
    assert forall i | 0 <= i < c.maxWorker :: s.slots[i] == FREE ==> t.slots[i] == FREE;
  }

  lemma ChildWriteKeepsInv(c: Config, s: State, p: int, v: int, pc: ChildPC)
    requires Inv(c, s) && p in s.procs && !Dead(s.procs[p].pc) && (Mine(s, p) || s.procs[p].pc == Born)
    requires (v == FREE && pc == ExitDone) || (Abs(v) == p && (pc == Idle || pc == Working))
    ensures Inv(c, SetPC(SetSlot(s, s.procs[p].slot, v), p, pc))
  {
    var t := SetPC(SetSlot(s, s.procs[p].slot, v), p, pc);
    assert ChildOk(s.slots, s.procs, Announced(s.parent), p);
    AfterChildWrite(s.slots, s.procs, Announced(s.parent), p, v, pc);
    BudgetAfterChild(c, s, t);
    ParentAfterChild(c, s, t, p);
  }

  lemma ChildMoveKeepsInv(c: Config, s: State, p: int, pc: ChildPC, time: int)
    requires Inv(c, s) && p in s.procs && !Dead(s.procs[p].pc)
    requires ChildOk(s.slots, s.procs[p := s.procs[p].(pc := pc)], Announced(s.parent), p)
    ensures Inv(c, SetPC(s, p, pc).(lastCheck := time))
  {
    var t := SetPC(s, p, pc).(lastCheck := time);
    AfterChildMove(s.slots, s.procs, Announced(s.parent), p, pc);
    BudgetAfterChild(c, s, t);
    ParentAfterChild(c, s, t, p);
  }

  /** The statements of a living child that write no slot. */
  predicate ReadsOnly(pc: ChildPC, leave: bool) {
    !Dead(pc) && pc != Born && pc != EndWrite && pc != ExitClear && !(pc == Idle && !leave)
  }

  lemma ChildMoves(s: State, p: int, leave: bool, time: int) returns (pc: ChildPC)
    requires p >= 2 && p in s.procs && s.procs[p].slot < |s.slots| && ReadsOnly(s.procs[p].pc, leave)
    requires ChildOk(s.slots, s.procs, Announced(s.parent), p)
    ensures ChildOk(s.slots, s.procs[p := s.procs[p].(pc := pc)], Announced(s.parent), p)
    ensures ChildNext(s, p, leave, time) == SetPC(s, p, pc).(lastCheck := ChildNext(s, p, leave, time).lastCheck)
  {
    pc := ChildNext(s, p, leave, time).procs[p].pc;
  }

  lemma ChildKeepsInv(c: Config, s: State, p: int, leave: bool, time: int)
    requires Inv(c, s) && p in s.procs
    ensures Inv(c, ChildNext(s, p, leave, time))
  {
    assert ChildOk(s.slots, s.procs, Announced(s.parent), p);
    if ReadsOnly(s.procs[p].pc, leave) {
      var pc := ChildMoves(s, p, leave, time);
      ChildMoveKeepsInv(c, s, p, pc, ChildNext(s, p, leave, time).lastCheck);
    } else if !Dead(s.procs[p].pc) {
      var t := ChildNext(s, p, leave, time);
      ChildWriteKeepsInv(c, s, p, t.slots[s.procs[p].slot], t.procs[p].pc);
    }
  }

  lemma NextKeepsInv(c: Config, s: State, e: Event, time: int)
    requires Inv(c, s) && Verified(c)
    ensures Inv(c, Next(c, s, e, time))
  {
    match e
    case Parent(env) => ParentKeepsInv(c, s, env);
    case ChildStep(p, leave) => if p in s.procs { ChildKeepsInv(c, s, p, leave, time); }
    case Interrupt(p) =>
      if p in s.procs && s.procs[p].pc != Born && !Dead(s.procs[p].pc) {
        ChildMoveKeepsInv(c, s, p, ExitReadPid, s.lastCheck);
      }
    case Crash(p) =>
      if p in s.procs && !Dead(s.procs[p].pc) { ChildMoveKeepsInv(c, s, p, Zombie, s.lastCheck); }
  }

  lemma ParentKeepsInv(c: Config, s: State, env: Env)
    requires Inv(c, s) && Verified(c)
    ensures Inv(c, ParentNext(c, s, env))
  {
    if Counting(s.parent) {
      CountKeepsInv(c, s);
    } else if Making(s.parent) {
      MakeChildKeepsInv(c, s, env);
    } else if s.parent.KillRead? {
      KillReadKeepsInv(c, s, env);
    } else if s.parent.KillClear? {
      KillClearKeepsInv(c, s, env);
    } else if Filling(s.parent) {
      FillKeepsInv(c, s, env);
    } else {
      RoutineKeepsInv(c, s, env);
    }
  }

  predicate Filling(pc: ParentPC) {
    pc.StartUp? || pc.Minimum? || pc.TopUpDecide? || pc.TopUp?
  }

  lemma RoutineKeepsInv(c: Config, s: State, env: Env)
    requires Inv(c, s) && Verified(c)
    requires s.parent.Sleeping? || s.parent.Reaping? || s.parent.CountStart? || s.parent.CheckAge?
    ensures Inv(c, PopulationNext(c, s, env))
  {
    if s.parent.Reaping? { AfterReap(s.slots, s.procs); }
  }

  /** Wherever the parent asks for a new child, the budget leaves a free slot. */
  lemma FillKeepsInv(c: Config, s: State, env: Env)
    requires Inv(c, s) && Verified(c) && Filling(s.parent)
    ensures Inv(c, PopulationNext(c, s, env))
  {
    if PopulationNext(c, s, env).parent.Scan? { FreeSlotExists(s.slots, c.maxWorker); }
  }

  lemma FreeingLowersUsed(slots: seq<int>, x: nat)
    requires x < |slots|
    ensures forall n: nat | n <= |slots| :: Used(slots[x := FREE], n) <= Used(slots, n)
  {
    forall n: nat | n <= |slots| ensures Used(slots[x := FREE], n) <= Used(slots, n) {
      UsedMono(slots, slots[x := FREE], n);
    }
  }

  lemma CountKeepsInv(c: Config, s: State)
    requires Inv(c, s) && Counting(s.parent)
    ensures Inv(c, CountNext(c, s))
  {
    if s.parent.CountReclaim? {
      AfterParentWrite(s.slots, s.procs, s.parent.x, FREE);
      FreeingLowersUsed(s.slots, s.parent.x);
      assert CountNext(c, s).slots[s.parent.x] == FREE;
    } else if s.parent.CountAlive? {
      assert HolderOk(s.procs, s.parent.x, s.slots[s.parent.x]);
    }
  }

  lemma KillClearKeepsInv(c: Config, s: State, env: Env)
    requires Inv(c, s) && Verified(c) && s.parent.KillClear?
    ensures Inv(c, PopulationNext(c, s, env))
  {
    AfterParentWrite(s.slots, s.procs, s.parent.x, FREE);
    FreeingLowersUsed(s.slots, s.parent.x);
  }

  lemma KillReadKeepsInv(c: Config, s: State, env: Env)
    requires Inv(c, s) && Verified(c) && s.parent.KillRead?
    ensures Inv(c, PopulationNext(c, s, env))
  {
    if s.parent.x < c.maxWorker {
      var v := s.slots[s.parent.x];
      assert HolderOk(s.procs, s.parent.x, v);
      if Kill(s, v) != s { AfterChildMove(s.slots, s.procs, 0, Abs(v), Zombie); }
    }
  }

  lemma MakeChildKeepsInv(c: Config, s: State, env: Env)
    requires Inv(c, s) && Verified(c) && Making(s.parent)
    ensures Inv(c, MakeChildNext(c, s, env))
  {
    match s.parent
    case Scan(_, _) => ScanKeepsInv(c, s, env);
    case Claim(_, _) => ClaimKeepsInv(c, s, env);
    case Forking(_, _) => ForkKeepsInv(c, s, env);
    case Announce(_, _, _) => AnnounceKeepsInv(c, s, env);
    case Made(_) =>
  }

  lemma ScanKeepsInv(c: Config, s: State, env: Env)
    requires Inv(c, s) && Verified(c) && s.parent.Scan?
    ensures Inv(c, MakeChildNext(c, s, env))
  {
    var i :| s.parent.x <= i < c.maxWorker && s.slots[i] == FREE;
    assert s.slots[s.parent.x] != FREE ==> s.parent.x + 1 <= i;
  }

  lemma ClaimKeepsInv(c: Config, s: State, env: Env)
    requires Inv(c, s) && Verified(c) && s.parent.Claim?
    ensures Inv(c, MakeChildNext(c, s, env))
  {
    AfterParentWrite(s.slots, s.procs, s.parent.x, RESERVED);
    forall n: nat | n <= c.maxWorker
      ensures Used(s.slots[s.parent.x := RESERVED], n) <= Used(s.slots, n) + 1
    {
      UsedPut(s.slots, s.parent.x, RESERVED, n);
    }
  }

  lemma ForkKeepsInv(c: Config, s: State, env: Env)
    requires Inv(c, s) && Verified(c) && s.parent.Forking?
    ensures Inv(c, MakeChildNext(c, s, env))
  {
    if 2 <= env.fork && env.fork !in s.procs {
      AfterFork(s.slots, s.procs, s.parent.idx, env.fork);
      assert Held(MakeChildNext(c, s, env)) == s.slots;
    }
  }

  lemma AnnounceKeepsInv(c: Config, s: State, env: Env)
    requires Inv(c, s) && Verified(c) && s.parent.Announce?
    ensures Inv(c, MakeChildNext(c, s, env))
  {
    var idx, pid := s.parent.idx, s.parent.pid;
    AfterAnnounce(s.slots, s.procs, idx, pid);
    assert s.slots[idx := -pid] == Held(s)[idx := -pid];
    forall n: nat | n <= c.maxWorker ensures Used(s.slots[idx := -pid], n) == Used(Held(s), n) {
      UsedPut(Held(s), idx, -pid, n);
    }
  }

  // ---------------------------------------------------------------- what holds in every reachable state

  lemma {:induction false} RunAppend(c: Config, s: State, es: seq<(Event, int)>, e: (Event, int))
    requires WellFormed(c, s)
    ensures Run(c, s, es + [e]) == Next(c, Run(c, s, es), e.0, e.1)
    decreases |es|
  {
    if es == [] {
      assert Run(c, Next(c, s, e.0, e.1), []) == Next(c, s, e.0, e.1);
      assert (es + [e])[1..] == [];
    } else {
      RunAppend(c, Next(c, s, es[0].0, es[0].1), es[1..], e);
      assert (es + [e])[1..] == es[1..] + [e];
    }
  }

  lemma {:induction false} RunKeepsInv(c: Config, s: State, es: seq<(Event, int)>)
    requires Inv(c, s) && Verified(c)
    ensures Inv(c, Run(c, s, es))
    decreases |es|
  {
    if es != [] {
      NextKeepsInv(c, s, es[0].0, es[0].1);
      RunKeepsInv(c, Next(c, s, es[0].0, es[0].1), es[1..]);
    }
  }

  /** The state after the events `es`, from an empty pool. */
  function After(c: Config, now: int, es: seq<(Event, int)>): (s: State)
    ensures WellFormed(c, s)
  {
    Run(c, Init(c, now), es)
  }

  lemma Reachable(c: Config, now: int, es: seq<(Event, int)>)
    requires Verified(c)
    ensures Inv(c, After(c, now, es))
  {
    InitInv(c, now);
    RunKeepsInv(c, Init(c, now), es);
  }

  /** A job worker that has written its slot and not begun its exit always finds itself there. */
  lemma WorkersFindThemselves(c: Config, now: int, es: seq<(Event, int)>, p: int)
    requires Verified(c) && p in After(c, now, es).procs
    requires Serving(After(c, now, es).procs[p].pc)
    ensures Mine(After(c, now, es), p)
  {
    Reachable(c, now, es);
    assert ChildOk(After(c, now, es).slots, After(c, now, es).procs, Announced(After(c, now, es).parent), p);
  }

  lemma NoSharedSlot(c: Config, now: int, es: seq<(Event, int)>, p: int, q: int)
    requires Verified(c)
    requires var s := After(c, now, es);
             p in s.procs && q in s.procs && p != q && Serving(s.procs[p].pc) && Serving(s.procs[q].pc)
    ensures After(c, now, es).procs[p].slot != After(c, now, es).procs[q].slot
  {
    WorkersFindThemselves(c, now, es, p);
    WorkersFindThemselves(c, now, es, q);
  }

  /** The "double used worker slot" branch, and the one for a slot taken away, are never entered. */
  lemma SlotsAreNeverDoubleUsed(c: Config, now: int, es: seq<(Event, int)>, p: int)
    requires Verified(c) && p in After(c, now, es).procs
    ensures After(c, now, es).procs[p].pc != DoubleUsed && After(c, now, es).procs[p].pc != SlotLost
  {
    Reachable(c, now, es);
    assert ChildOk(After(c, now, es).slots, After(c, now, es).procs, Announced(After(c, now, es).parent), p);
  }

  /** The guarded clear frees the exiting worker's own slot: nobody else loses one. */
  lemma ClearFreesOwnSlotOnly(c: Config, now: int, es: seq<(Event, int)>, p: int, leave: bool, time: int)
    requires Verified(c)
    requires var s := After(c, now, es); p in s.procs && s.procs[p].pc == ExitClear
    ensures var s := After(c, now, es); var t := Next(c, s, ChildStep(p, leave), time);
            && Mine(s, p)
            && t.slots[s.procs[p].slot] == FREE
            && (forall i | 0 <= i < c.maxWorker && i != s.procs[p].slot :: t.slots[i] == s.slots[i])
            && (forall q | q in s.procs && q != p && Serving(s.procs[q].pc) :: s.procs[q].slot != s.procs[p].slot)
  {
    Reachable(c, now, es);
    var s := After(c, now, es);
    assert ChildOk(s.slots, s.procs, Announced(s.parent), p);
    forall q | q in s.procs && q != p && Serving(s.procs[q].pc) ensures s.procs[q].slot != s.procs[p].slot {
      assert ChildOk(s.slots, s.procs, Announced(s.parent), q);
    }
  }

  /** Whenever the parent is about to ask for a new child the table has a free slot and the number of
      used slots, with the one in the making, is within what the parent has counted. */
  lemma AFreeSlotIsAlwaysLeft(c: Config, now: int, es: seq<(Event, int)>)
    requires Verified(c)
    ensures !After(c, now, es).parent.Exhausted?
    ensures var s := After(c, now, es);
            s.parent.Scan? ==> exists i :: s.parent.x <= i < c.maxWorker && s.slots[i] == FREE
    ensures var s := After(c, now, es);
            s.parent.CheckAge? || s.parent.Minimum? || s.parent.TopUpDecide? ==> Used(s.slots, c.maxWorker) <= s.workers
  {
    Reachable(c, now, es);
  }

  // ---------------------------------------------------------------- without the clamp

  /** The parent starts more children than there are slots, and every fork fails. */
  ghost predicate Overfilling(c: Config, s: State) {
    && WellFormed(c, s)
    && match s.parent
       case StartUp(k) => k <= c.maxWorker && Reserved(s, k)
       case Scan(x, ToStartUp(k)) => x <= k <= c.maxWorker && Reserved(s, k)
       case Claim(x, ToStartUp(k)) => x == k < c.maxWorker && Reserved(s, k)
       case Forking(x, ToStartUp(k)) => x == k < c.maxWorker && Reserved(s, k + 1)
       case Made(ToStartUp(k)) => k < c.maxWorker && Reserved(s, k + 1)
       case _ => false
  }

  predicate Reserved(s: State, k: nat)
    requires k <= |s.slots|
  {
    forall i | 0 <= i < |s.slots| :: s.slots[i] == if i < k then RESERVED else FREE
  }

  function Distance(c: Config, s: State): (nat, nat)
    requires s.parent.StartUp?
             || ((s.parent.Scan? || s.parent.Claim? || s.parent.Forking? || s.parent.Made?) && s.parent.ret.ToStartUp?)
  {
    match s.parent
    case StartUp(k) => (if k <= c.maxWorker then c.maxWorker - k else 0, c.maxWorker + 5)
    case Scan(x, ret) =>
      (if ret.k <= c.maxWorker then c.maxWorker - ret.k else 0, if x <= c.maxWorker then c.maxWorker - x + 3 else 0)
    case Claim(x, ret) => (if ret.k <= c.maxWorker then c.maxWorker - ret.k else 0, 2)
    case Forking(x, ret) => (if ret.k <= c.maxWorker then c.maxWorker - ret.k else 0, 1)
    case Made(ret) => (if ret.k <= c.maxWorker then c.maxWorker - ret.k else 0, 0)
  }

  lemma Overfill(c: Config, s: State) returns (es: seq<(Event, int)>)
    requires c.minWorker > c.maxWorker && Overfilling(c, s)
    ensures Run(c, s, es).parent.Exhausted?
    decreases Distance(c, s).0, Distance(c, s).1
  {
    var e := Parent(Env(0, -1, 0.0, 0.0, 0.0, false));
    var t := Next(c, s, e, 0);
    if t.parent.Exhausted? {
      es := [(e, 0)];
      assert Run(c, t, []) == t;
    } else {
      var rest := Overfill(c, t);
      es := [(e, 0)] + rest;
      assert es[1..] == rest;
    }
  }

  /** The clamp of verify_options is exactly what keeps the table from running out. */
  lemma ClampIsNeeded(c: Config, now: int)
    ensures Verified(c) <==> forall es :: !After(c, now, es).parent.Exhausted?
  {
    if Verified(c) {
      forall es ensures !After(c, now, es).parent.Exhausted? {
        AFreeSlotIsAlwaysLeft(c, now, es);
      }
    } else {
      var es := Overfill(c, Init(c, now));
      assert After(c, now, es).parent.Exhausted?;
    }
  }

  // ---------------------------------------------------------------- a restart is counted twice

  /** The next statement of the parent; a fork in it gets `pid`. */
  function Forks(pid: int): Event {
    Parent(Env(0, pid, 0.0, 0.0, 0.0, false))
  }

  /** The same event `n` times. */
  function Repeated(e: Event, n: nat): seq<(Event, int)> {
    if n == 0 then [] else [(e, 0)] + Repeated(e, n - 1)
  }

  function Steps(c: Config, s: State, e: Event, n: nat): (t: State)
    requires WellFormed(c, s)
    ensures WellFormed(c, t)
    decreases n
  {
    if n == 0 then s else Steps(c, Next(c, s, e, 0), e, n - 1)
  }

  lemma {:induction false} StepsAreARun(c: Config, s: State, e: Event, n: nat)
    requires WellFormed(c, s)
    ensures Run(c, s, Repeated(e, n)) == Steps(c, s, e, n)
    decreases n
  {
    hide Next;
    if n > 0 {
      StepsAreARun(c, Next(c, s, e, 0), e, n - 1);
      assert Repeated(e, n)[1..] == Repeated(e, n - 1);
    }
  }

  lemma {:induction false} RunConcat(c: Config, s: State, a: seq<(Event, int)>, b: seq<(Event, int)>)
    requires WellFormed(c, s)
    ensures Run(c, s, a + b) == Run(c, Run(c, s, a), b)
    decreases |a|
  {
    hide Next;
    if a == [] {
      assert a + b == b;
    } else {
      RunConcat(c, Next(c, s, a[0].0, a[0].1), a[1..], b);
      assert (a + b)[1..] == a[1..] + b;
    }
  }

  /** After the events `es`, the same event `n` times. */
  lemma AfterSteps(c: Config, es: seq<(Event, int)>, e: Event, n: nat)
    ensures After(c, 0, es + Repeated(e, n)) == Steps(c, After(c, 0, es), e, n)
  {
    hide Run, Steps, Repeated;
    RunConcat(c, Init(c, 0), es, Repeated(e, n));
    StepsAreARun(c, After(c, 0, es), e, n);
  }

  lemma OneStep(c: Config, s: State, e: Event, n: nat)
    requires WellFormed(c, s) && n > 0
    ensures Steps(c, s, e, n) == Steps(c, Next(c, s, e, 0), e, n - 1)
  {
  }

  lemma NoStep(c: Config, s: State, e: Event)
    requires WellFormed(c, s)
    ensures Steps(c, s, e, 0) == s
  {
  }

  /** Child `p` takes one step after the other. */
  function Alone(c: Config, s: State, p: int, n: nat): (t: State)
    requires WellFormed(c, s)
    ensures WellFormed(c, t)
  {
    Steps(c, s, ChildStep(p, false), n)
  }

  lemma AloneStep(c: Config, s: State, p: int, n: nat)
    requires WellFormed(c, s) && p in s.procs
    ensures p >= 2 && s.procs[p].slot < |s.slots|
    ensures n > 0 ==> WellFormed(c, ChildNext(s, p, false, 0)) && p in ChildNext(s, p, false, 0).procs
    ensures n > 0 ==> Alone(c, s, p, n) == Alone(c, ChildNext(s, p, false, 0), p, n - 1)
    ensures n == 0 ==> Alone(c, s, p, n) == s
  {
    hide Steps, ParentNext;
    var e := ChildStep(p, false);
    assert WellFormed(c, Next(c, s, e, 0));
    if n > 0 { OneStep(c, s, e, n); } else { NoStep(c, s, e); }
  }

  /** set_state(GM_JOB_END) of a worker nobody disturbs, whatever its slot holds: the two error branches are taken
      exactly if the slot is free or holds somebody else, and otherwise it is idle again. */
  lemma JobEndAlone(c: Config, s: State, p: int)
    requires WellFormed(c, s) && p in s.procs && s.procs[p].pc == EndReadFree
    ensures s.procs[p].slot < |s.slots|
    ensures var i := s.procs[p].slot; var v := s.slots[i];
            && (v == -1 ==> Alone(c, s, p, 1) == SetPC(s, p, SlotLost))
            && (v == p ==> Alone(c, s, p, 3) == SetPC(SetSlot(s, i, -p), p, Idle))
            && (v == -p ==> Alone(c, s, p, 4) == SetPC(s, p, Idle))
            && (v != -1 && v != p && v != -p ==> Alone(c, s, p, 3) == SetPC(s, p, DoubleUsed))
  {
    hide Alone, WellFormed;
    AloneStep(c, s, p, 1); AloneStep(c, s, p, 3); AloneStep(c, s, p, 4);
    var v, t := s.slots[s.procs[p].slot], ChildNext(s, p, false, 0);
    if v == -1 {
      AloneStep(c, t, p, 0);
    } else {
      assert t == SetPC(s, p, EndReadPid);
      PidRead(c, t, p);
      if v == -p { assert s.slots[s.procs[p].slot := -p] == s.slots; }
    }
  }

  lemma PidRead(c: Config, s: State, p: int)
    requires WellFormed(c, s) && p in s.procs && s.procs[p].pc == EndReadPid
    ensures p >= 2 && s.procs[p].slot < |s.slots|
    ensures var i := s.procs[p].slot; var v := s.slots[i];
            && (v == p ==> Alone(c, s, p, 2) == SetPC(SetSlot(s, i, -p), p, Idle))
            && (v == -p ==> Alone(c, s, p, 3) == SetPC(SetSlot(s, i, -p), p, Idle))
            && (v != p && v != -p ==> Alone(c, s, p, 2) == SetPC(s, p, DoubleUsed))
  {
    hide Alone, WellFormed;
    AloneStep(c, s, p, 2); AloneStep(c, s, p, 3);
    var v, t := s.slots[s.procs[p].slot], ChildNext(s, p, false, 0);
    AloneStep(c, t, p, 1); AloneStep(c, t, p, 2);
    var u := ChildNext(t, p, false, 0);
    AloneStep(c, u, p, 0); AloneStep(c, u, p, 1);
    if v == -p { AloneStep(c, ChildNext(u, p, false, 0), p, 0); }
  }

  /** A worker that dies after the waitpid loop keeps its slot in this pass, and loses it in one that has waited for
      it. */
  lemma DyingWorkerIsCounted(c: Config, s: State, x: nat, restart: bool, p: int)
    requires WellFormed(c, s) && s.parent == CountAlive(x, restart) && x < c.maxWorker
    requires p in s.procs && s.slots[x] in {p, -p}
    ensures var t := CountNext(c, s);
            t == s.(parent := if s.procs[p].pc == Reaped then CountReclaim(x, restart) else CountUsed(x, restart))
  {
    SlotOf(c, s, p);
  }

  lemma SlotOf(c: Config, s: State, p: int)
    requires WellFormed(c, s) && p in s.procs
    ensures p >= 2 && s.procs[p].slot < |s.slots|
  {
  }

  /** The end of clean_worker_exit for a worker nobody disturbs: its slot is freed if and only if it holds the
      worker itself. */
  lemma ExitAlone(c: Config, s: State, p: int)
    requires WellFormed(c, s) && p in s.procs && s.procs[p].pc == ExitReadPid
    ensures s.procs[p].slot < |s.slots|
    ensures var i := s.procs[p].slot; var v := s.slots[i];
            && (v == p ==> Alone(c, s, p, 2) == SetPC(SetSlot(s, i, -1), p, ExitDone))
            && (v == -p ==> Alone(c, s, p, 3) == SetPC(SetSlot(s, i, -1), p, ExitDone))
            && (v != p && v != -p ==> Alone(c, s, p, 2) == SetPC(s, p, ExitDone))
  {
    hide Alone, WellFormed;
    AloneStep(c, s, p, 2); AloneStep(c, s, p, 3);
    var v, t := s.slots[s.procs[p].slot], ChildNext(s, p, false, 0);
    AloneStep(c, t, p, 1); AloneStep(c, t, p, 2);
    var u := ChildNext(t, p, false, 0);
    AloneStep(c, u, p, 0); AloneStep(c, u, p, 1);
    if v == -p { AloneStep(c, ChildNext(u, p, false, 0), p, 0); }
  }

  /** Two slots for two workers, at time 0. */
  ghost predicate TwoSlots(c: Config, s: State) {
    WellFormed(c, s) && c.minWorker == c.maxWorker == 2 && s.now == s.lastCheck == s.lastIncreased == 0
  }

  /** A slot is reserved, forked for and announced. */
  lemma FillSteps(c: Config, s: State, idx: nat, pid: int, ret: ReturnTo, n: nat) returns (t: State)
    requires WellFormed(c, s) && s.parent == Claim(idx, ret) && idx < c.maxWorker
    requires pid >= 2 && pid !in s.procs && n >= 3
    ensures WellFormed(c, t) && Steps(c, s, Forks(pid), n) == Steps(c, t, Forks(pid), n - 3)
    ensures t == s.(slots := s.slots[idx := -pid], procs := s.procs[pid := Child(idx, Born)], parent := Made(ret))
  {
    hide Steps, CountNext, PopulationNext, ProcsOk;
    var e := Forks(pid);
    t := s;
    OneStep(c, t, e, n); t := Next(c, t, e, 0); assert t.parent == Forking(idx, ret);
    OneStep(c, t, e, n - 1); t := Next(c, t, e, 0); assert t.parent == Announce(idx, pid, ret);
    OneStep(c, t, e, n - 2); t := Next(c, t, e, 0);
    assert s.slots[idx := RESERVED][idx := -pid] == s.slots[idx := -pid];
  }

  /** The first worker is started. */
  lemma FirstStart(c: Config, s: State)
    requires TwoSlots(c, s) && s.parent == StartUp(0) && s.slots == [FREE, FREE] && 2 !in s.procs
    ensures Steps(c, s, Forks(2), 6) ==
            s.(slots := [-2, FREE], procs := s.procs[2 := Child(0, Born)], parent := StartUp(1))
  {
    hide Steps, CountNext, Adjust, ProcsOk;
    var e, t := Forks(2), s;
    OneStep(c, t, e, 6); t := Next(c, t, e, 0); assert t.parent == Scan(0, ToStartUp(0));
    OneStep(c, t, e, 5); t := Next(c, t, e, 0); assert t.parent == Claim(0, ToStartUp(0));
    t := FillSteps(c, t, 0, 2, ToStartUp(0), 4);
    OneStep(c, t, e, 1); t := Next(c, t, e, 0);
    assert [FREE, FREE][0 := -2] == [-2, FREE];
    NoStep(c, t, e);
  }

  /** And the second. */
  lemma SecondStart(c: Config, s: State)
    requires TwoSlots(c, s) && s.parent == StartUp(1) && s.slots == [-2, FREE] && 3 !in s.procs
    ensures Steps(c, s, Forks(3), 8) ==
            s.(slots := [-2, -3], procs := s.procs[3 := Child(1, Born)], parent := Sleeping)
  {
    hide Steps, Next;
    var t := SecondScan(c, s);
    t := FillSteps(c, t, 1, 3, ToStartUp(1), 5);
    StartIsOver(c, t);
    assert [-2, FREE][1 := -3] == [-2, -3];
  }

  lemma SecondScan(c: Config, s: State) returns (t: State)
    requires TwoSlots(c, s) && s.parent == StartUp(1) && s.slots == [-2, FREE]
    ensures TwoSlots(c, t) && t == s.(parent := Claim(1, ToStartUp(1)))
    ensures Steps(c, s, Forks(3), 8) == Steps(c, t, Forks(3), 5)
  {
    hide Steps, CountNext, Adjust, ProcsOk, Return;
    var e := Forks(3);
    t := s;
    OneStep(c, t, e, 8); t := Next(c, t, e, 0); assert t.parent == Scan(0, ToStartUp(1));
    OneStep(c, t, e, 7); t := Next(c, t, e, 0); assert t.parent == Scan(1, ToStartUp(1));
    OneStep(c, t, e, 6); t := Next(c, t, e, 0);
  }

  lemma StartIsOver(c: Config, s: State)
    requires TwoSlots(c, s) && s.parent == Made(ToStartUp(1))
    ensures Steps(c, s, Forks(3), 2) == s.(parent := Sleeping)
  {
    hide Steps, CountNext, Adjust, ProcsOk;
    var e, t := Forks(3), s;
    OneStep(c, t, e, 2); t := Next(c, t, e, 0); assert t.parent == StartUp(2);
    OneStep(c, t, e, 1); t := Next(c, t, e, 0);
    NoStep(c, t, e);
  }

  /** The second worker announces itself, decides to leave and frees its slot. */
  lemma SecondLeaves(c: Config, s: State)
    requires TwoSlots(c, s) && s.slots == [-2, -3] && 3 in s.procs && s.procs[3] == Child(1, Born)
    ensures Steps(c, s, ChildStep(3, true), 6) == s.(slots := [-2, FREE], procs := s.procs[3 := Child(1, Zombie)])
  {
    hide Steps, ParentNext, ProcsOk;
    var e, t := ChildStep(3, true), s;
    OneStep(c, t, e, 6); t := Next(c, t, e, 0); assert t.procs[3] == Child(1, Idle) && t.slots == [-2, -3];
    OneStep(c, t, e, 5); t := Next(c, t, e, 0); assert t.procs[3] == Child(1, ExitReadPid);
    OneStep(c, t, e, 4); t := Next(c, t, e, 0); assert t.procs[3] == Child(1, ExitReadNeg);
    OneStep(c, t, e, 3); t := Next(c, t, e, 0); assert t.procs[3] == Child(1, ExitClear);
    OneStep(c, t, e, 2); t := Next(c, t, e, 0); assert t.procs[3] == Child(1, ExitDone) && t.slots == [-2, FREE];
    OneStep(c, t, e, 1); t := Next(c, t, e, 0);
    NoStep(c, t, e);
  }

  lemma FirstDies(c: Config, s: State)
    requires WellFormed(c, s) && 2 in s.procs && s.procs[2] == Child(0, Born)
    ensures Steps(c, s, Crash(2), 1) == s.(procs := s.procs[2 := Child(0, Zombie)])
  {
    hide Steps;
    OneStep(c, s, Crash(2), 1);
    NoStep(c, Next(c, s, Crash(2), 0), Crash(2));
  }

  /** The pass finds the dead worker. */
  lemma ReclaimSteps(c: Config, s: State) returns (t: State)
    requires TwoSlots(c, s) && s.parent == Sleeping
    requires s.slots == [-2, FREE] && 2 in s.procs && s.procs[2].pc == Zombie
    ensures TwoSlots(c, t) && Steps(c, s, Forks(4), 20) == Steps(c, t, Forks(4), 14)
    ensures t == s.(slots := [FREE, FREE], procs := Reap(s.procs), parent := Scan(0, ToCount(0)),
                    workers := 0, jobs := 0)
  {
    hide Steps, MakeChildNext;
    var e := Forks(4);
    t := s;
    OneStep(c, t, e, 20); t := Next(c, t, e, 0); assert t.parent == Reaping(true);
    OneStep(c, t, e, 19); t := Next(c, t, e, 0); assert t.parent == CountStart(true);
    OneStep(c, t, e, 18); t := Next(c, t, e, 0); assert t.parent == CountStale(0, true);
    OneStep(c, t, e, 17); t := Next(c, t, e, 0); assert t.parent == CountAlive(0, true);
    OneStep(c, t, e, 16); t := Next(c, t, e, 0); assert t.parent == CountReclaim(0, true);
    OneStep(c, t, e, 15); t := Next(c, t, e, 0);
    assert [-2, FREE][0 := FREE] == [FREE, FREE];
  }

  /** Another takes its place and is counted for the first time. */
  lemma RestartSteps(c: Config, s: State) returns (t: State)
    requires TwoSlots(c, s) && s.parent == Scan(0, ToCount(0)) && s.slots == [FREE, FREE] && 4 !in s.procs
    ensures TwoSlots(c, t) && Steps(c, s, Forks(4), 14) == Steps(c, t, Forks(4), 9)
    ensures t == s.(slots := [-4, FREE], procs := s.procs[4 := Child(0, Born)], parent := CountUsed(0, true),
                    workers := s.workers + 1)
  {
    hide Steps, CountNext, PopulationNext, ProcsOk;
    var e := Forks(4);
    t := s;
    OneStep(c, t, e, 14); t := Next(c, t, e, 0); assert t.parent == Claim(0, ToCount(0));
    t := FillSteps(c, t, 0, 4, ToCount(0), 13);
    OneStep(c, t, e, 10); t := Next(c, t, e, 0);
    assert [FREE, FREE][0 := -4] == [-4, FREE];
  }

  /** It is counted for the second time. */
  lemma RecountSteps(c: Config, s: State) returns (t: State)
    requires TwoSlots(c, s) && s.parent == CountUsed(0, true) && s.slots == [-4, FREE] && s.workers == 1
    ensures TwoSlots(c, t) && Steps(c, s, Forks(4), 9) == Steps(c, t, Forks(4), 4)
    ensures t == s.(parent := CountStale(2, true), workers := 2)
  {
    hide Steps, MakeChildNext, PopulationNext;
    var e := Forks(4);
    t := s;
    OneStep(c, t, e, 9); t := Next(c, t, e, 0); assert t.parent == CountBusy(0, true);
    OneStep(c, t, e, 8); t := Next(c, t, e, 0); assert t.parent == CountStale(1, true);
    OneStep(c, t, e, 7); t := Next(c, t, e, 0); assert t.parent == CountUsed(1, true);
    OneStep(c, t, e, 6); t := Next(c, t, e, 0); assert t.parent == CountBusy(1, true);
    OneStep(c, t, e, 5); t := Next(c, t, e, 0);
  }

  /** There seem to be enough. */
  lemma FinalSteps(c: Config, s: State)
    requires TwoSlots(c, s) && s.parent == CountStale(2, true) && s.workers == 2
    ensures Steps(c, s, Forks(4), 4) == s.(parent := Sleeping)
  {
    hide Steps, MakeChildNext, Adjust;
    var e, t := Forks(4), s;
    OneStep(c, t, e, 4); t := Next(c, t, e, 0); assert t.parent == CheckAge;
    OneStep(c, t, e, 3); t := Next(c, t, e, 0); assert t.parent == Minimum(2);
    OneStep(c, t, e, 2); t := Next(c, t, e, 0); assert t.parent == TopUpDecide;
    OneStep(c, t, e, 1); t := Next(c, t, e, 0);
    NoStep(c, t, e);
  }

  /** Two workers are started, the second leaves, the first dies. */
  lemma OneDead(c: Config) returns (es: seq<(Event, int)>)
    requires c.minWorker == c.maxWorker == 2
    ensures var s := After(c, 0, es);
            && TwoSlots(c, s) && s.parent == Sleeping && s.slots == [-2, FREE] && 4 !in s.procs
            && 2 in s.procs && s.procs[2].pc == Zombie
  {
    hide Run, Steps, Next, Repeated;
    es := [];
    assert After(c, 0, es) == Init(c, 0) by { NoEvents(c, Init(c, 0)); }
    assert Init(c, 0).slots == [FREE, FREE];
    FirstStart(c, After(c, 0, es));
    AfterSteps(c, es, Forks(2), 6);
    es := es + Repeated(Forks(2), 6);
    SecondStart(c, After(c, 0, es));
    AfterSteps(c, es, Forks(3), 8);
    es := es + Repeated(Forks(3), 8);
    SecondLeaves(c, After(c, 0, es));
    AfterSteps(c, es, ChildStep(3, true), 6);
    es := es + Repeated(ChildStep(3, true), 6);
    FirstDies(c, After(c, 0, es));
    AfterSteps(c, es, Crash(2), 1);
    es := es + Repeated(Crash(2), 1);
  }

  lemma NoEvents(c: Config, s: State)
    requires WellFormed(c, s)
    ensures Run(c, s, []) == s
  {
  }

  /** From start-up with the clamp and without a failure, a pass in which no child moves can end below the
      minimum: the worker that it restarts in place is counted twice. */
  lemma RestartCostsAWorker(c: Config) returns (es: seq<(Event, int)>)
    requires c.minWorker == c.maxWorker == 2
    ensures After(c, 0, es).parent == Sleeping
    ensures var t := After(c, 0, es + Repeated(Forks(4), 20));
            t.parent == Sleeping && Used(t.slots, c.maxWorker) < c.minWorker
  {
    hide Run, Steps, Next, TwoSlots, Repeated;
    es := OneDead(c);
    var reclaimed := ReclaimSteps(c, After(c, 0, es));
    var restarted := RestartSteps(c, reclaimed);
    var counted := RecountSteps(c, restarted);
    FinalSteps(c, counted);
    AfterSteps(c, es, Forks(4), 20);
    assert Used([-4, FREE], 1) == 1;
  }
}
