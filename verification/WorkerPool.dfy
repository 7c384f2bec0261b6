/** The parent's loops over the shared table, with its children running in between.

    Before every access of shared memory the methods below call `Elsewhere`, which runs any number of
    steps of the children; `company` says which.  After every access they record the event of
    SlotProtocol that the access is, and `Valid` says that the memory is what those events make of an
    empty pool.  So each method is shown to perform steps of the protocol only, in the protocol's order,
    and everything proved of reachable states holds at each of its statements. */
module WorkerPool {
  import opened SlotProtocol

  const SHM_WORKER_TOTAL := 1
  const SHM_WORKER_RUNNING := 2
  const SHM_WORKER_LAST_CHECK := 4
  const SHM_SHIFT := 5

  const QUIET_ENV := Env(0, 0, 0.0, 0.0, 0.0, false)

  /** Slot value `v` is free or belongs to a process that answers. */
  predicate Settled(procs: map<int, Child>, v: int) {
    v == FREE || Alive(procs, v)
  }

  ghost predicate NoStale(slots: seq<int>, procs: map<int, Child>) {
    forall i | 0 <= i < |slots| :: Settled(procs, slots[i])
  }

  /** One slot after count_current_worker(GM_DISABLED). */
  function Reclaimed(procs: map<int, Child>, v: int): int {
    if Alive(procs, v) then v else FREE
  }

  /** The number of slots above 0 among the first `n`. */
  function Busy(slots: seq<int>, n: nat): nat
    requires n <= |slots|
  {
    if n == 0 then 0 else Busy(slots, n - 1) + if slots[n - 1] > 0 then 1 else 0
  }

  lemma {:induction false} BusySame(a: seq<int>, b: seq<int>, n: nat)
    requires n <= |a| && n <= |b|
    requires forall i | 0 <= i < n :: a[i] == b[i]
    ensures Busy(a, n) == Busy(b, n)
  {
    if n > 0 { BusySame(a, b, n - 1); }
  }

  // ---------------------------------------------------------------- company

  /** Who takes steps between two accesses of the parent: no child, all children but none that begins
      or goes on with its exit, or all of them, with signals and crashes. */
  datatype Company = Nobody | Staying | Anybody

  /** The statements of a child that are no part of its exit. */
  predicate Stays(pc: ChildPC, leave: bool) {
    pc in {Born, Working, EndReadFree, EndReadPid, EndReadNeg, EndWrite} || (pc == Idle && !leave)
  }

  predicate Admitted(company: Company, s: State, e: Event) {
    match company
    case Nobody => false
    case Staying => e.ChildStep? && e.pid in s.procs && Stays(s.procs[e.pid].pc, e.leave)
    case Anybody => !e.Parent?
  }

  /** Whose slot it is; working or idle makes no difference. */
  function Owner(v: int): int {
    if v == FREE || v == RESERVED then v else Abs(v)
  }

  datatype Fate = Living | Unreaped | Gone

  function FateOf(pc: ChildPC): Fate {
    if pc == Reaped then Gone else if pc == Zombie then Unreaped else Living
  }

  ghost predicate SameOwners(a: seq<int>, b: seq<int>) {
    |a| == |b| && forall i | 0 <= i < |a| :: Owner(a[i]) == Owner(b[i])
  }

  ghost predicate SameKin(a: map<int, Child>, b: map<int, Child>) {
    a.Keys == b.Keys && forall p | p in a :: b[p].slot == a[p].slot && FateOf(b[p].pc) == FateOf(a[p].pc)
  }

  /** Table and processes after some steps of the given company, which may have been none. */
  ghost predicate Like(company: Company, slots: seq<int>, procs: map<int, Child>,
                       slots': seq<int>, procs': map<int, Child>) {
    && (company == Nobody ==> slots' == slots && procs' == procs)
    && (company != Anybody ==> SameOwners(slots, slots') && SameKin(procs, procs'))
  }

  lemma LikeItself(company: Company, slots: seq<int>, procs: map<int, Child>)
    ensures Like(company, slots, procs, slots, procs)
  {
  }

  lemma LikeNobody(slots: seq<int>, procs: map<int, Child>, slots': seq<int>, procs': map<int, Child>)
    requires Like(Nobody, slots, procs, slots', procs')
    ensures slots' == slots && procs' == procs
  {
  }

  lemma LikeThen(company: Company, s: seq<int>, p: map<int, Child>, t: seq<int>, q: map<int, Child>,
                 u: seq<int>, r: map<int, Child>)
    requires Like(company, s, p, t, q) && Like(company, t, q, u, r)
    ensures Like(company, s, p, u, r)
  {
  }

  /** A write of the parent. */
  lemma LikePut(company: Company, s: seq<int>, p: map<int, Child>, t: seq<int>, q: map<int, Child>, i: nat, v: int)
    requires Like(company, s, p, t, q) && i < |s| == |t|
    ensures Like(company, s[i := v], p, t[i := v], q)
  {
  }

  /** A fork. */
  lemma LikeFork(company: Company, s: seq<int>, p: map<int, Child>, t: seq<int>, q: map<int, Child>,
                 pid: int, c: Child)
    requires Like(company, s, p, t, q)
    ensures Like(company, s, p[pid := c], t, q[pid := c])
  {
  }

  lemma LikeReap(company: Company, s: seq<int>, p: map<int, Child>, t: seq<int>, q: map<int, Child>)
    requires Like(company, s, p, t, q)
    ensures Like(company, s, Reap(p), t, Reap(q))
  {
  }

  /** What staying children leave as it is. */
  lemma LikeSlot(company: Company, s: seq<int>, p: map<int, Child>, t: seq<int>, q: map<int, Child>, i: nat)
    requires Like(company, s, p, t, q) && company != Anybody && i < |s|
    ensures |t| == |s| && p.Keys == q.Keys
    ensures (s[i] == FREE <==> t[i] == FREE) && (s[i] == RESERVED <==> t[i] == RESERVED)
    ensures Settled(p, s[i]) <==> Settled(q, t[i])
    ensures Owner(Reclaimed(p, s[i])) == Owner(Reclaimed(q, t[i]))
  {
  }

  lemma LikeUsed(company: Company, s: seq<int>, p: map<int, Child>, t: seq<int>, q: map<int, Child>, n: nat)
    requires Like(company, s, p, t, q) && company != Anybody && n <= |s|
    ensures |t| == |s| && Used(s, n) == Used(t, n)
  {
    UsedMono(s, t, n);
    UsedMono(t, s, n);
  }

  lemma LikeStale(company: Company, s: seq<int>, p: map<int, Child>, t: seq<int>, q: map<int, Child>)
    requires Like(company, s, p, t, q) && company != Anybody && NoStale(s, p)
    ensures NoStale(t, q)
  {
    hide Like, Settled;
    SameLength(company, s, p, t, q);
    forall i | 0 <= i < |t| ensures Settled(q, t[i]) { LikeSlot(company, s, p, t, q, i); }
  }

  lemma SameLength(company: Company, s: seq<int>, p: map<int, Child>, t: seq<int>, q: map<int, Child>)
    requires Like(company, s, p, t, q) && company != Anybody
    ensures |t| == |s| && p.Keys == q.Keys
  {
  }

  /** The table with the pid the parent is about to write; its child may have written it already. */
  function Announcing(s: State): (a: seq<int>)
    ensures |a| == |s.slots|
  {
    if s.parent.Announce? && s.parent.idx < |s.slots| then s.slots[s.parent.idx := -s.parent.pid] else s.slots
  }

  /** A statement that is no part of an exit leaves it to the same processes who owns which slot. */
  lemma StayingStep(s: State, p: int, leave: bool, time: int)
    requires p in s.procs && p >= 2 && s.procs[p].slot < |s.slots| && Stays(s.procs[p].pc, leave)
    requires ChildOk(s.slots, s.procs, Announced(s.parent), p)
    requires s.parent.Announce? && s.parent.pid == p ==> s.procs[p].slot == s.parent.idx
    ensures var t := ChildNext(s, p, leave, time);
            && t.parent == s.parent
            && SameOwners(Announcing(s), Announcing(t)) && SameKin(s.procs, t.procs)
  {
    var t := ChildNext(s, p, leave, time);
    var i := s.procs[p].slot;
    if ReadsOnly(s.procs[p].pc, leave) {
      assert t.slots == s.slots;
    } else {
      assert t.slots == s.slots[i := t.slots[i]] && Owner(t.slots[i]) == p;
      assert Owner(Announcing(s)[i]) == Owner(Announcing(t)[i]);
    }
  }

  /** What belongs to the parent is not touched by others, and nobody but the parent uses a free slot. */
  lemma OthersKeep(c: Config, s: State, e: Event, time: int)
    requires Inv(c, s) && !e.Parent?
    ensures var t := Next(c, s, e, time);
            && t.parent == s.parent && t.workers == s.workers && t.jobs == s.jobs
            && t.now == s.now && t.lastIncreased == s.lastIncreased
            && forall i | 0 <= i < c.maxWorker && s.slots[i] == FREE :: t.slots[i] == FREE
  {
    hide Budget, HoldersOk, ParentOk;
    if e.ChildStep? && e.pid in s.procs {
      assert ChildOk(s.slots, s.procs, Announced(s.parent), e.pid);
    }
  }

  lemma StepInCompany(company: Company, c: Config, s: State, e: Event, time: int)
    requires Inv(c, s) && Admitted(company, s, e)
    ensures var t := Next(c, s, e, time); Like(company, Announcing(s), s.procs, Announcing(t), t.procs)
  {
    hide Budget, HoldersOk, ChildNext, ChildOk, Announcing, SameOwners, SameKin;
    if company == Staying {
      assert ChildOk(s.slots, s.procs, Announced(s.parent), e.pid);
      StayingStep(s, e.pid, e.leave, time);
    }
  }

  // ---------------------------------------------------------------- used slots

  lemma {:induction false} UsedSame(a: seq<int>, b: seq<int>, n: nat)
    requires n <= |a| && n <= |b|
    requires forall i | 0 <= i < n :: a[i] == b[i]
    ensures Used(a, n) == Used(b, n)
  {
    if n > 0 { UsedSame(a, b, n - 1); }
  }

  lemma NothingUsed(slots: seq<int>)
    requires forall i | 0 <= i < |slots| :: slots[i] == FREE
    ensures Used(slots, |slots|) == 0
  {
    NoneUsed(|slots|, |slots|);
    UsedSame(slots, seq(|slots|, _ => FREE), |slots|);
  }

  // ---------------------------------------------------------------- one more child

  /** No slot in front of `n` is free. */
  predicate NoneFree(slots: seq<int>, n: nat)
    requires n <= |slots|
  {
    forall i | 0 <= i < n :: slots[i] != FREE
  }

  lemma LikeNoneFree(company: Company, s: seq<int>, p: map<int, Child>, t: seq<int>, q: map<int, Child>, n: nat)
    requires Like(company, s, p, t, q) && company != Anybody && n <= |s|
    ensures |t| == |s| && (NoneFree(s, n) <==> NoneFree(t, n))
  {
    hide Like;
    SameLength(company, s, p, t, q);
    forall i | 0 <= i < n ensures s[i] == FREE <==> t[i] == FREE { LikeSlot(company, s, p, t, q, i); }
  }

  function Kin(procs: map<int, Child>, ok: bool, idx: nat, pid: int): map<int, Child> {
    if ok then procs[pid := Child(idx, Born)] else procs
  }

  /** What make_new_child does: a new child, or the reservation a failed fork leaves behind, in the first
      slot that was free. */
  ghost predicate Grown(company: Company, slots: seq<int>, procs: map<int, Child>,
                        slots': seq<int>, procs': map<int, Child>, ok: bool, idx: nat, pid: int) {
    && idx < |slots|
    && (company != Anybody ==> slots[idx] == FREE && NoneFree(slots, idx) && ok == (pid >= 2 && pid !in procs))
    && Like(company, slots[idx := if ok then -pid else RESERVED], Kin(procs, ok, idx, pid), slots', procs')
  }

  /** The company may have been busy before. */
  lemma LikeThenGrown(company: Company, s: seq<int>, p: map<int, Child>, t: seq<int>, q: map<int, Child>,
                      u: seq<int>, r: map<int, Child>, ok: bool, idx: nat, pid: int)
    requires |s| == |t| && Like(company, s, p, t, q) && Grown(company, t, q, u, r, ok, idx, pid)
    ensures Grown(company, s, p, u, r, ok, idx, pid)
  {
    hide Like;
    var v := if ok then -pid else RESERVED;
    if company != Anybody {
      LikeSlot(company, s, p, t, q, idx);
      LikeNoneFree(company, s, p, t, q, idx);
    }
    LikePut(company, s, p, t, q, idx, v);
    if ok { LikeFork(company, s[idx := v], p, t[idx := v], q, pid, Child(idx, Born)); }
    LikeThen(company, s[idx := v], Kin(p, ok, idx, pid), t[idx := v], Kin(q, ok, idx, pid), u, r);
  }

  /** And it may go on afterwards. */
  lemma GrownThenLike(company: Company, s: seq<int>, p: map<int, Child>, t: seq<int>, q: map<int, Child>,
                      u: seq<int>, r: map<int, Child>, ok: bool, idx: nat, pid: int)
    requires Grown(company, s, p, t, q, ok, idx, pid) && Like(company, t, q, u, r)
    ensures Grown(company, s, p, u, r, ok, idx, pid)
  {
    hide Like;
    LikeThen(company, s[idx := if ok then -pid else RESERVED], Kin(p, ok, idx, pid), t, q, u, r);
  }

  lemma GrownLength(company: Company, slots: seq<int>, procs: map<int, Child>,
                    slots': seq<int>, procs': map<int, Child>, ok: bool, idx: nat, pid: int)
    requires company != Anybody && Grown(company, slots, procs, slots', procs', ok, idx, pid)
    ensures |slots'| == |slots|
  {
  }

  lemma GrownUsed(company: Company, slots: seq<int>, procs: map<int, Child>,
                  slots': seq<int>, procs': map<int, Child>, ok: bool, idx: nat, pid: int, n: nat)
    requires company != Anybody && Grown(company, slots, procs, slots', procs', ok, idx, pid) && n <= |slots|
    ensures |slots'| == |slots| && Used(slots', n) == Used(slots, n) + if idx < n then 1 else 0
  {
    hide Like;
    var v := if ok then -pid else RESERVED;
    UsedPut(slots, idx, v, n);
    LikeUsed(company, slots[idx := v], Kin(procs, ok, idx, pid), slots', procs', n);
  }

  /** No other slot loses or changes its process. */
  lemma GrownSlot(company: Company, slots: seq<int>, procs: map<int, Child>,
                  slots': seq<int>, procs': map<int, Child>, ok: bool, idx: nat, pid: int, i: nat)
    requires company != Anybody && Grown(company, slots, procs, slots', procs', ok, idx, pid) && i < |slots|
    ensures |slots'| == |slots| && (slots'[i] == FREE <==> slots[i] == FREE && i != idx)
    ensures Settled(procs, slots[i]) ==> Settled(procs', slots'[i]) || (!ok && slots'[i] == RESERVED)
    ensures slots[i] == RESERVED ==> slots'[i] == RESERVED
    ensures HolderOk(procs, i, slots[i]) && i != idx ==> (Settled(procs', slots'[i]) <==> Settled(procs, slots[i]))
  {
    hide Like;
    LikeSlot(company, slots[idx := if ok then -pid else RESERVED], Kin(procs, ok, idx, pid), slots', procs', i);
  }

  lemma GrownStale(company: Company, slots: seq<int>, procs: map<int, Child>,
                   slots': seq<int>, procs': map<int, Child>, idx: nat, pid: int)
    requires company != Anybody && Grown(company, slots, procs, slots', procs', true, idx, pid)
    requires NoStale(slots, procs)
    ensures NoStale(slots', procs')
  {
    hide Grown, Settled;
    GrownLength(company, slots, procs, slots', procs', true, idx, pid);
    forall i | 0 <= i < |slots'| ensures Settled(procs', slots'[i]) {
      GrownSlot(company, slots, procs, slots', procs', true, idx, pid, i);
    }
  }

  /** The fork itself, before the parent writes its slot. */
  lemma LikeForked(company: Company, slots: seq<int>, known: map<int, Child>, slots': seq<int>,
                   procs: map<int, Child>, idx: nat, pid: int)
    requires idx < |slots| == |slots'| && Like(company, slots[idx := RESERVED], known, slots', procs)
    ensures company != Anybody ==> procs.Keys == known.Keys
    ensures Like(company, slots[idx := -pid], known[pid := Child(idx, Born)],
                 slots'[idx := -pid], procs[pid := Child(idx, Born)])
  {
    hide Like;
    if company != Anybody { SameLength(company, slots[idx := RESERVED], known, slots', procs); }
    LikePut(company, slots[idx := RESERVED], known, slots', procs, idx, -pid);
    assert slots[idx := RESERVED][idx := -pid] == slots[idx := -pid];
    LikeFork(company, slots[idx := -pid], known, slots'[idx := -pid], procs, pid, Child(idx, Born));
  }

  lemma ForkStep(c: Config, s: State, fork: int)
    requires WellFormed(c, s) && s.parent.Forking? && s.parent.idx < c.maxWorker
    ensures var ok := fork >= 2 && fork !in s.procs;
            Next(c, s, Parent(QUIET_ENV.(fork := fork)), 0)
            == s.(procs := Kin(s.procs, ok, s.parent.idx, fork),
                  parent := if ok then Announce(s.parent.idx, fork, s.parent.ret) else Made(s.parent.ret))
  {
  }

  // ---------------------------------------------------------------- what counting has established so far

  /** The table after `x` rounds of count_current_worker(GM_DISABLED). */
  ghost function Cleared(slots: seq<int>, procs: map<int, Child>, x: nat): (c: seq<int>)
    ensures |c| == |slots|
  {
    seq(|slots|, i requires 0 <= i < |slots| => if i < x then Reclaimed(procs, slots[i]) else slots[i])
  }

  ghost predicate Counted(company: Company, start: seq<int>, known: map<int, Child>,
                          slots: seq<int>, procs: map<int, Child>, x: nat, workers: int, jobs: int) {
    && |slots| == |start| && x <= |start|
    && Like(company, Cleared(start, known, x), known, slots, procs)
    && workers == Used(slots, x) && 0 <= jobs <= workers
    && (company == Nobody ==> jobs == Busy(slots, x))
  }

  lemma NothingCounted(company: Company, slots: seq<int>, procs: map<int, Child>)
    ensures Counted(company, slots, procs, slots, procs, 0, 0, 0)
  {
    assert Cleared(slots, procs, 0) == slots;
  }

  /** One round, from `last` and `was` to `slots` and `procs`. */
  lemma CountedNext(company: Company, start: seq<int>, known: map<int, Child>, last: seq<int>, was: map<int, Child>,
                    slots: seq<int>, procs: map<int, Child>, x: nat, w: int, j: int, workers: int, jobs: int)
    requires company != Anybody && Counted(company, start, known, last, was, x, w, j)
    requires x < |last| && Like(company, last[x := Reclaimed(was, last[x])], was, slots, procs)
    requires |slots| == |last| && workers == w + if slots[x] != FREE then 1 else 0
    requires j <= jobs <= j + if slots[x] != FREE then 1 else 0
    requires company == Nobody ==> jobs == j + if slots[x] > 0 then 1 else 0
    ensures Counted(company, start, known, slots, procs, x + 1, workers, jobs)
  {
    var c, d := Cleared(start, known, x), Cleared(start, known, x + 1);
    var v := Reclaimed(was, last[x]);
    LikeSlot(company, c, known, last, was, x);
    assert d == c[x := Reclaimed(known, start[x])];
    assert Like(company, d, known, last[x := v], was);
    LikeThen(company, d, known, last[x := v], was, slots, procs);
    UsedSame(last, last[x := v], x);
    LikeUsed(company, last[x := v], was, slots, procs, x);
    if company == Nobody { BusySame(last, slots, x); }
  }

  lemma AllCounted(company: Company, start: seq<int>, known: map<int, Child>,
                   slots: seq<int>, procs: map<int, Child>, workers: int, jobs: int)
    requires company != Anybody && Counted(company, start, known, slots, procs, |slots|, workers, jobs)
    ensures |slots| == |start| && Like(company, Cleared(start, known, |start|), known, slots, procs)
    ensures NoStale(slots, procs) && workers == Used(slots, |slots|) && 0 <= jobs <= workers
    ensures company == Nobody ==> jobs == Busy(slots, |slots|)
  {
    LikeStale(company, Cleared(start, known, |start|), known, slots, procs);
  }

  /** The stale slots among the first `n` that have no free slot in front of them. The worker restarted for
      such a slot takes the same slot again. */
  function Doubled(slots: seq<int>, procs: map<int, Child>, n: nat): nat
    requires n <= |slots|
  {
    if n == 0 then 0
    else Doubled(slots, procs, n - 1) + if !Settled(procs, slots[n - 1]) && NoneFree(slots, n - 1) then 1 else 0
  }

  lemma {:induction false} LikeDoubled(company: Company, s: seq<int>, p: map<int, Child>,
                                       t: seq<int>, q: map<int, Child>, n: nat)
    requires Like(company, s, p, t, q) && company != Anybody && n <= |s|
    ensures |t| == |s| && Doubled(s, p, n) == Doubled(t, q, n)
  {
    hide Like, Settled, NoneFree;
    SameLength(company, s, p, t, q);
    if n > 0 {
      LikeDoubled(company, s, p, t, q, n - 1);
      LikeSlot(company, s, p, t, q, n - 1);
      LikeNoneFree(company, s, p, t, q, n - 1);
    }
  }

  lemma {:induction false} NoneDoubled(slots: seq<int>, procs: map<int, Child>, n: nat)
    requires NoStale(slots, procs) && n <= |slots|
    ensures Doubled(slots, procs, n) == 0
  {
    if n > 0 { NoneDoubled(slots, procs, n - 1); }
  }

  /** Slot `i` has not been looked at. */
  ghost predicate Pending(start: seq<int>, known: map<int, Child>, slots: seq<int>, procs: map<int, Child>, i: nat)
    requires i < |start| == |slots|
  {
    (slots[i] == FREE <==> start[i] == FREE) && (Settled(procs, slots[i]) <==> Settled(known, start[i]))
  }

  /** `x` rounds of count_current_worker(GM_ENABLED). */
  ghost predicate Recounted(start: seq<int>, known: map<int, Child>, slots: seq<int>, procs: map<int, Child>,
                            x: nat, workers: int, restarts: nat, failed: nat) {
    && x <= |slots| == |start|
    && workers == Used(slots, x) + Doubled(start, known, x)
    && Doubled(start, known, x) <= restarts
    && Used(slots, |slots|) == Used(start, |start|)
    && (NoneFree(slots, x) <==> NoneFree(start, x))
    && (forall i | 0 <= i < x :: Settled(procs, slots[i]) || (failed > 0 && slots[i] == RESERVED))
    && (forall i | x <= i < |slots| :: Pending(start, known, slots, procs, i))
  }

  lemma NothingRecounted(slots: seq<int>, procs: map<int, Child>)
    ensures Recounted(slots, procs, slots, procs, 0, 0, 0, 0)
  {
  }

  lemma PendingLike(company: Company, start: seq<int>, known: map<int, Child>, last: seq<int>, was: map<int, Child>,
                    slots: seq<int>, procs: map<int, Child>, i: nat)
    requires company != Anybody && i < |start| == |last| == |slots| && Like(company, last, was, slots, procs)
    requires Pending(start, known, last, was, i)
    ensures Pending(start, known, slots, procs, i)
  {
    hide Like, Settled;
    LikeSlot(company, last, was, slots, procs, i);
  }

  lemma SettledNext(company: Company, start: seq<int>, known: map<int, Child>, last: seq<int>, was: map<int, Child>,
                    x: nat, w: int, restarts: nat, failed: nat,
                    slots: seq<int>, procs: map<int, Child>, workers: int)
    requires company != Anybody && Recounted(start, known, last, was, x, w, restarts, failed)
    requires x < |last| == |slots| && Settled(was, last[x]) && Like(company, last, was, slots, procs)
    requires workers == w + if slots[x] != FREE then 1 else 0
    ensures Recounted(start, known, slots, procs, x + 1, workers, restarts, failed)
  {
    hide Like, Settled, Pending;
    LikeUsed(company, last, was, slots, procs, x);
    LikeUsed(company, last, was, slots, procs, |last|);
    LikeNoneFree(company, last, was, slots, procs, x);
    PendingHere(start, known, last, was, x);
    LikeSlot(company, last, was, slots, procs, x);
    forall i | 0 <= i < x + 1 ensures Settled(procs, slots[i]) || (failed > 0 && slots[i] == RESERVED) {
      LikeSlot(company, last, was, slots, procs, i);
    }
    forall i | x < i < |slots| ensures Pending(start, known, slots, procs, i) {
      PendingLike(company, start, known, last, was, slots, procs, i);
    }
  }

  lemma PendingHere(start: seq<int>, known: map<int, Child>, slots: seq<int>, procs: map<int, Child>, x: nat)
    requires x < |start| == |slots| && Pending(start, known, slots, procs, x)
    ensures (slots[x] == FREE <==> start[x] == FREE) && (Settled(procs, slots[x]) <==> Settled(known, start[x]))
  {
  }

  /** Counting up to slot `x` has found nothing stale. */
  ghost predicate Unchanged(company: Company, start: seq<int>, known: map<int, Child>,
                            slots: seq<int>, procs: map<int, Child>, x: nat, jobs: int) {
    && Like(company, start, known, slots, procs) && x <= |start|
    && (company == Nobody ==> slots == start && jobs == Busy(start, x))
  }

  lemma NothingChanged(company: Company, slots: seq<int>, procs: map<int, Child>)
    ensures Unchanged(company, slots, procs, slots, procs, 0, 0)
  {
  }

  lemma UnchangedHere(company: Company, start: seq<int>, known: map<int, Child>,
                      slots: seq<int>, procs: map<int, Child>, x: nat, jobs: int)
    requires company != Anybody && NoStale(start, known)
    requires Unchanged(company, start, known, slots, procs, x, jobs) && x < |slots|
    ensures |slots| == |start| && Settled(procs, slots[x])
  {
    hide Like, Settled;
    SameLength(company, start, known, slots, procs);
    LikeStale(company, start, known, slots, procs);
  }

  lemma UnchangedNext(company: Company, start: seq<int>, known: map<int, Child>, last: seq<int>, was: map<int, Child>,
                      slots: seq<int>, procs: map<int, Child>, x: nat, j: int, jobs: int)
    requires company != Anybody && Unchanged(company, start, known, last, was, x, j) && x < |start| == |slots|
    requires Like(company, last, was, slots, procs)
    requires company == Nobody ==> jobs == j + if slots[x] > 0 then 1 else 0
    ensures Unchanged(company, start, known, slots, procs, x + 1, jobs)
  {
    hide Like;
    if company == Nobody { LikeNobody(last, was, slots, procs); }
    LikeThen(company, start, known, last, was, slots, procs);
  }

  lemma NothingStale(company: Company, start: seq<int>, known: map<int, Child>,
                     slots: seq<int>, procs: map<int, Child>, x: nat, jobs: int)
    requires Unchanged(company, start, known, slots, procs, x, jobs)
    ensures Like(company, start, known, slots, procs) && (company == Nobody ==> x <= |start| && jobs == Busy(start, x))
  {
  }

  /** The slot that is taken: the freed one itself if no other is free in front of it. */
  lemma FirstFree(last: seq<int>, x: nat, idx: nat)
    requires x < |last| && idx < |last| && last[x := FREE][idx] == FREE && NoneFree(last[x := FREE], idx)
    ensures if NoneFree(last, x) then idx == x else idx < x
  {
    var cut := last[x := FREE];
    assert cut[x] == FREE;
    if !NoneFree(last, x) {
      var f :| 0 <= f < x && last[f] == FREE;
      assert cut[f] == FREE;
    }
  }

  lemma RestartedNext(company: Company, start: seq<int>, known: map<int, Child>, last: seq<int>, was: map<int, Child>,
                      x: nat, w: int, restarts: nat, failed: nat,
                      slots: seq<int>, procs: map<int, Child>, workers: int, ok: bool, idx: nat, pid: int)
    requires company != Anybody && Recounted(start, known, last, was, x, w, restarts, failed)
    requires x < |last| == |slots| && !Settled(was, last[x]) && HoldersOk(last, was)
    requires Grown(company, last[x := FREE], was, slots, procs, ok, idx, pid)
    requires workers == (w + 1 + if slots[x] != FREE then 1 else 0)
    ensures Recounted(start, known, slots, procs, x + 1, workers, restarts + 1, if ok then failed else failed + 1)
  {
    hide Grown, Settled, Pending;
    var cut := last[x := FREE];
    SettledFree(was);
    UsedSame(last, cut, x);
    UsedPut(cut, x, last[x], |cut|);
    assert cut[x := last[x]] == last;
    GrownUsed(company, cut, was, slots, procs, ok, idx, pid, x);
    GrownUsed(company, cut, was, slots, procs, ok, idx, pid, |cut|);
    GrownFirst(company, cut, was, slots, procs, ok, idx, pid);
    FirstFree(last, x, idx);
    GrownSlot(company, cut, was, slots, procs, ok, idx, pid, x);
    PendingHere(start, known, last, was, x);
    var f := if ok then failed else failed + 1;
    forall i | 0 <= i < x + 1 ensures Settled(procs, slots[i]) || (f > 0 && slots[i] == RESERVED) {
      GrownSlot(company, cut, was, slots, procs, ok, idx, pid, i);
    }
    RestartedFree(company, last, was, x, slots, procs, ok, idx, pid);
    forall i | x < i < |slots| ensures Pending(start, known, slots, procs, i) {
      GrownSlot(company, cut, was, slots, procs, ok, idx, pid, i);
      PendingGrown(start, known, last, was, slots, procs, i);
    }
  }

  lemma PendingGrown(start: seq<int>, known: map<int, Child>, last: seq<int>, was: map<int, Child>,
                     slots: seq<int>, procs: map<int, Child>, i: nat)
    requires i < |start| == |last| == |slots| && Pending(start, known, last, was, i)
    requires (slots[i] == FREE <==> last[i] == FREE) && (Settled(procs, slots[i]) <==> Settled(was, last[i]))
    ensures Pending(start, known, slots, procs, i)
  {
  }

  lemma GrownFirst(company: Company, slots: seq<int>, procs: map<int, Child>,
                   slots': seq<int>, procs': map<int, Child>, ok: bool, idx: nat, pid: int)
    requires company != Anybody && Grown(company, slots, procs, slots', procs', ok, idx, pid)
    ensures idx < |slots| && slots[idx] == FREE && NoneFree(slots, idx)
  {
  }

  /** After a restart there is a free slot up to `x` if and only if there was one in front of it. */
  lemma RestartedFree(company: Company, last: seq<int>, was: map<int, Child>, x: nat,
                      slots: seq<int>, procs: map<int, Child>, ok: bool, idx: nat, pid: int)
    requires company != Anybody && x < |last| == |slots| && last[x] != FREE
    requires Grown(company, last[x := FREE], was, slots, procs, ok, idx, pid)
    ensures NoneFree(slots, x + 1) <==> NoneFree(last, x)
    ensures slots[x] != FREE <==> idx == x
  {
    hide Grown, Settled;
    var cut := last[x := FREE];
    GrownFirst(company, cut, was, slots, procs, ok, idx, pid);
    FirstFree(last, x, idx);
    forall i | 0 <= i < x + 1 ensures slots[i] == FREE <==> cut[i] == FREE && i != idx {
      GrownSlot(company, cut, was, slots, procs, ok, idx, pid, i);
    }
    assert cut[x] == FREE;
    assert slots[x] != FREE <==> idx == x;
    if NoneFree(last, x) {
      forall i | 0 <= i < x + 1 ensures slots[i] != FREE { assert i < x ==> cut[i] == last[i]; }
    }
  }

  lemma SettledFree(procs: map<int, Child>)
    ensures Settled(procs, FREE)
  {
  }

  lemma AllRecounted(start: seq<int>, known: map<int, Child>, slots: seq<int>, procs: map<int, Child>,
                     workers: int, restarts: nat, failed: nat)
    requires Recounted(start, known, slots, procs, |slots|, workers, restarts, failed)
    ensures |slots| == |start| && Used(slots, |slots|) == Used(start, |start|)
    ensures workers == Used(slots, |slots|) + Doubled(start, known, |start|)
    ensures Doubled(start, known, |start|) <= restarts
    ensures forall i | 0 <= i < |slots| :: Settled(procs, slots[i]) || (failed > 0 && slots[i] == RESERVED)
  {
  }

  predicate Leaving(pc: ChildPC) {
    pc == ExitReadPid || Dead(pc)
  }

  /** Nobody else moves a child, except to its end. */
  lemma OthersOnlyEndMe(c: Config, s: State, e: Event, time: int, me: int)
    requires WellFormed(c, s) && me in s.procs && !(e.ChildStep? && e.pid == me)
    ensures var t := Next(c, s, e, time);
            && me in t.procs && t.procs[me].slot == s.procs[me].slot
            && (t.procs[me].pc == s.procs[me].pc || Leaving(t.procs[me].pc))
  {
  }

  /** Nobody else changes the slot of a living worker that finds itself there, except to its negated pid. */
  lemma OthersKeepMine(c: Config, s: State, e: Event, time: int, me: int)
    requires Inv(c, s) && me in s.procs && Holds(s.slots, s.procs, me) && !(e.ChildStep? && e.pid == me)
    ensures var t := Next(c, s, e, time); var i := s.procs[me].slot;
            me in t.procs && (Dead(t.procs[me].pc) || t.slots[i] == s.slots[i] || t.slots[i] == -me)
  {
    hide Budget;
    var t := Next(c, s, e, time);
    match e
    case ChildStep(q, _) =>
      if q in s.procs { assert ChildOk(s.slots, s.procs, Announced(s.parent), q); }
    case Interrupt(_) =>
    case Crash(_) =>
    case Parent(env) => ParentKeepsMine(c, s, env, me);
  }

  lemma ParentKeepsMine(c: Config, s: State, env: Env, me: int)
    requires Inv(c, s) && me in s.procs && Holds(s.slots, s.procs, me)
    ensures var t := ParentNext(c, s, env); var i := s.procs[me].slot;
            me in t.procs && (Dead(t.procs[me].pc) || t.slots[i] == s.slots[i] || t.slots[i] == -me)
  {
    hide Budget, HoldersOk, ChildrenOk;
    assert me >= 2;
  }

  /** Worker `me` is dead, or its slot holds `was` or its negated pid. */
  ghost predicate Kept(s: State, me: int, was: int) {
    && me in s.procs && s.procs[me].slot < |s.slots|
    && (Dead(s.procs[me].pc) || s.slots[s.procs[me].slot] == was || s.slots[s.procs[me].slot] == -me)
  }

  lemma StillKept(c: Config, s: State, e: Event, time: int, me: int, was: int)
    requires Inv(c, s) && Kept(s, me, was) && (was == me || was == -me) && !(e.ChildStep? && e.pid == me)
    ensures Kept(Next(c, s, e, time), me, was)
  {
    hide Next, Inv;
    assert WellFormed(c, s) by { WellFormedInv(c, s); }
    OthersOnlyEndMe(c, s, e, time, me);
    if Dead(s.procs[me].pc) {
      DeadStayDead(c, s, e, time, me);
    } else {
      OthersKeepMine(c, s, e, time, me);
    }
  }

  lemma WellFormedInv(c: Config, s: State)
    requires Inv(c, s)
    ensures WellFormed(c, s)
  {
  }

  lemma DeadStayDead(c: Config, s: State, e: Event, time: int, me: int)
    requires WellFormed(c, s) && me in s.procs && Dead(s.procs[me].pc)
    ensures me in Next(c, s, e, time).procs && Dead(Next(c, s, e, time).procs[me].pc)
  {
    hide ProcsOk, CountNext, MakeChildNext, Return, Adjust;
    if e.Parent? { DeadToParent(c, s, e.env, me); }
  }

  lemma DeadToParent(c: Config, s: State, env: Env, me: int)
    requires WellFormed(c, s) && me in s.procs && Dead(s.procs[me].pc)
    ensures me in ParentNext(c, s, env).procs && Dead(ParentNext(c, s, env).procs[me].pc)
  {
    hide ProcsOk, Adjust;
  }

  lemma OwnSlotAtLastLook(c: Config, now: int, es: seq<(Event, int)>, p: int)
    requires Verified(c)
    requires var s := After(c, now, es); p in s.procs && s.procs[p].pc == EndReadNeg
    ensures var s := After(c, now, es); s.slots[s.procs[p].slot] == -p
  {
    Reachable(c, now, es);
    assert ChildOk(After(c, now, es).slots, After(c, now, es).procs, Announced(After(c, now, es).parent), p);
  }

  lemma HoldersOfReachable(c: Config, now: int, es: seq<(Event, int)>)
    requires Verified(c)
    ensures HoldersOk(After(c, now, es).slots, After(c, now, es).procs)
  {
    Reachable(c, now, es);
  }

  function Max(a: int, b: int): int {
    if a < b then b else a
  }

  function Min(a: int, b: int): int {
    if a < b then a else b
  }

  // ---------------------------------------------------------------- how far the pool is topped up

  /** One of the three load averages has reached its limit, if it has one. */
  predicate LoadLimitReached(c: Config, env: Env) {
    var limits, loads := [c.loadLimit1, c.loadLimit5, c.loadLimit15], [env.load1, env.load5, env.load15];
    exists k | 0 <= k < 3 :: limits[k] > 0.0 && loads[k] >= limits[k]
  }

  /** More than 90 percent, in whole percent, are busy, or no more than two are idle. */
  predicate Pressed(workers: int, jobs: int) {
    jobs > 0 && (100 * jobs >= 91 * workers || workers - jobs <= 2)
  }

  /** What becomes of `workers` workers of which `jobs` are busy. */
  predicate ToppedUp(c: Config, env: Env, workers: int, jobs: int, after: int) {
    if Pressed(workers, jobs) && !LoadLimitReached(c, env)
    then after == Max(workers, Min(c.maxWorker, workers + c.spawnRate))
    else after == workers
  }

  lemma QuotientAbove(a: nat, n: nat, q: nat, r: nat)
    requires a == q * n + r && r < n
    ensures q > 90 <==> a >= 91 * n
  {
    if q > 90 {
      assert (q - 91) * n >= 0;
      assert (q - 91) * n == q * n - 91 * n;
    } else {
      assert (90 - q) * n >= 0;
      assert (90 - q) * n == 90 * n - q * n;
    }
  }

  lemma WholePercent(jobs: nat, workers: nat)
    requires workers > 0
    ensures jobs * 100 / workers > 90 <==> 100 * jobs >= 91 * workers
  {
    var a: nat := jobs * 100;
    Divided(a, workers);
    QuotientAbove(a, workers, a / workers, a % workers);
  }

  lemma Divided(a: nat, n: nat)
    requires n > 0
    ensures a / n >= 0 && 0 <= a % n < n && a == a / n * n + a % n
  {
  }

  lemma ReachedHere(c: Config, env: Env)
    ensures LoadLimitReached(c, env) <==>
            || (c.loadLimit1 > 0.0 && env.load1 >= c.loadLimit1)
            || (c.loadLimit5 > 0.0 && env.load5 >= c.loadLimit5)
            || (c.loadLimit15 > 0.0 && env.load15 >= c.loadLimit15)
  {
    var limits, loads := [c.loadLimit1, c.loadLimit5, c.loadLimit15], [env.load1, env.load5, env.load15];
    assert limits[0] > 0.0 && loads[0] >= limits[0] ==> LoadLimitReached(c, env);
    assert limits[1] > 0.0 && loads[1] >= limits[1] ==> LoadLimitReached(c, env);
    assert limits[2] > 0.0 && loads[2] >= limits[2] ==> LoadLimitReached(c, env);
  }

  /** adjust_number_of_worker, whose answer is only used to start more workers. */
  lemma TargetIs(c: Config, env: Env, workers: nat, jobs: nat)
    requires Verified(c) && c.minWorker <= workers && jobs <= workers
    ensures ToppedUp(c, env, workers, jobs, Max(workers, Adjust(c, workers, jobs, env)))
  {
    hide LoadLimitReached;
    ReachedHere(c, env);
    if workers > 0 { WholePercent(jobs, workers); }
  }

  class Pool {
    const cfg: Config
    const shm: array<int>           // the shared memory segment
    var procs: map<int, Child>      // the kernel's process table
    var parent: ParentPC            // the statement the parent is at
    var workers: int                // current_number_of_workers
    var jobs: int                   // current_number_of_jobs
    var now: int
    var lastIncreased: int          // last_time_increased
    ghost const started: int
    ghost var events: seq<(Event, int)>

    function Snapshot(): (s: State)
      reads this, shm
      requires shm.Length == cfg.maxWorker + SHM_SHIFT
    {
      State(shm[SHM_SHIFT..], procs, workers, jobs, parent, now, shm[SHM_WORKER_LAST_CHECK], lastIncreased)
    }

    ghost predicate Valid()
      reads this, shm
    {
      && shm.Length == cfg.maxWorker + SHM_SHIFT
      && Verified(cfg)
      && Snapshot() == After(cfg, started, events)
    }

    function Slots(): (s: seq<int>)
      reads this, shm
      requires shm.Length == cfg.maxWorker + SHM_SHIFT
      ensures |s| == cfg.maxWorker
    {
      shm[SHM_SHIFT..]
    }

    ghost function UsedSlots(): nat
      reads this, shm
      requires shm.Length == cfg.maxWorker + SHM_SHIFT
    {
      Used(Slots(), cfg.maxWorker)
    }

    /** verify_options and setup_child_communicator */
    constructor (min: int, max: nat, spawnRate: int, limits: (real, real, real), time: int)
      ensures Valid() && fresh(shm) && parent == StartUp(0) && workers == 0
      ensures cfg.minWorker == (if min > max then max else min) && cfg.maxWorker == max
      ensures Slots() == seq(max, _ => FREE)
    {
      var (lo, hi) := VerifyLimits(min, max);
      cfg := Config(lo, max, spawnRate, limits.0, limits.1, limits.2);
      shm := new int[max + SHM_SHIFT];
      procs, parent, workers, jobs, now, lastIncreased := map[], StartUp(0), 0, 0, time, 0;
      started, events := time, [];
      new;
      shm[0], shm[1], shm[2], shm[3], shm[SHM_WORKER_LAST_CHECK] := 0, 0, 0, -1, time;
      var x := 0;
      while x < max
        invariant 0 <= x <= max && shm.Length == max + SHM_SHIFT && shm[SHM_WORKER_LAST_CHECK] == time
        invariant procs == map[] && parent == StartUp(0) && workers == jobs == lastIncreased == 0 && now == time
        invariant events == []
        invariant forall i | SHM_SHIFT <= i < x + SHM_SHIFT :: shm[i] == FREE
      {
        shm[x + SHM_SHIFT] := FREE;
        x := x + 1;
      }
      assert forall i | 0 <= i < max :: Slots()[i] == FREE && Init(cfg, time).slots[i] == FREE;
      assert Slots() == seq(max, _ => FREE);
      assert Slots() == Init(cfg, time).slots;
    }

    /** The access just made was event `e` in state `before`. */
    ghost method Record(before: State, e: Event, time: int)
      requires shm.Length == cfg.maxWorker + SHM_SHIFT && Verified(cfg)
      requires before == After(cfg, started, events)
      requires Snapshot() == Next(cfg, before, e, time)
      modifies this`events
      ensures Valid()
    {
      RunAppend(cfg, Init(cfg, started), events, (e, time));
      events := events + [(e, time)];
    }

    /** Any number of steps of the children the company admits.  They keep the memory like any table
        and processes that it was like before. */
    method Elsewhere(company: Company, ghost slots: seq<int>, ghost known: map<int, Child>)
      requires Valid() && Like(company, slots, known, Announcing(Snapshot()), procs)
      modifies this`procs, this`events, shm
      ensures Valid() && Like(company, slots, known, Announcing(Snapshot()), procs)
      ensures company == Nobody ==> Snapshot() == old(Snapshot())
      ensures forall i | 0 <= i < cfg.maxWorker && old(Slots())[i] == FREE :: Slots()[i] == FREE
    {
      hide After, Next, Like, Inv, Announcing;
      var n: nat := *;
      while n > 0
        invariant Valid() && Like(company, slots, known, Announcing(Snapshot()), procs)
        invariant company == Nobody ==> Snapshot() == old(Snapshot())
        invariant forall i | 0 <= i < cfg.maxWorker && old(Slots())[i] == FREE :: Slots()[i] == FREE
      {
        var e: Event, time: int := *, *;
        if Admitted(company, Snapshot(), e) {
          ghost var before := Snapshot();
          Reachable(cfg, started, events);
          OthersKeep(cfg, before, e, time);
          StepInCompany(company, cfg, before, e, time);
          var t := Next(cfg, Snapshot(), e, time);
          procs := t.procs;
          forall i | 0 <= i < cfg.maxWorker { shm[i + SHM_SHIFT] := t.slots[i]; }
          shm[SHM_WORKER_LAST_CHECK] := t.lastCheck;
          assert shm[SHM_SHIFT..] == t.slots;
          LikeThen(company, slots, known, Announcing(before), before.procs, Announcing(t), t.procs);
          Record(before, e, time);
        }
        n := n - 1;
      }
    }

    /** One round of get_next_shm_index: reads slot `x`. */
    method IsFree(x: nat, ret: ReturnTo, company: Company, ghost slots: seq<int>, ghost known: map<int, Child>)
      returns (free: bool)
      requires Valid() && parent == Scan(x, ret) && x < cfg.maxWorker
      requires |slots| == cfg.maxWorker && Like(company, slots, known, Slots(), procs)
      modifies this, shm
      ensures Valid() && parent == (if free then Claim(x, ret) else Scan(x + 1, ret))
      ensures workers == old(workers) && jobs == old(jobs) && now == old(now) && lastIncreased == old(lastIncreased)
      ensures Like(company, slots, known, Slots(), procs)
      ensures company != Anybody ==> free == (slots[x] == FREE)
    {
      hide After, ChildNext, CountNext, PopulationNext, Like;
      Elsewhere(company, slots, known);
      ghost var before := Snapshot();
      free := shm[x + SHM_SHIFT] == FREE;
      parent := if free then Claim(x, ret) else Scan(x + 1, ret);
      Record(before, Parent(QUIET_ENV), 0);
      if company != Anybody { LikeSlot(company, slots, known, Slots(), procs, x); }
    }

    /** The write of get_next_shm_index. */
    method Reserve(x: nat, ret: ReturnTo, company: Company, ghost slots: seq<int>, ghost known: map<int, Child>)
      requires Valid() && parent == Claim(x, ret) && x < cfg.maxWorker
      requires |slots| == cfg.maxWorker && Like(company, slots, known, Slots(), procs)
      modifies this, shm
      ensures Valid() && parent == Forking(x, ret) && Slots()[x] == RESERVED
      ensures workers == old(workers) && jobs == old(jobs) && now == old(now) && lastIncreased == old(lastIncreased)
      ensures Like(company, slots[x := RESERVED], known, Slots(), procs)
    {
      hide After, ChildNext, CountNext, PopulationNext, Like;
      Elsewhere(company, slots, known);
      ghost var before := Snapshot();
      shm[x + SHM_SHIFT] := RESERVED;
      parent := Forking(x, ret);
      assert Slots() == before.slots[x := RESERVED];
      LikePut(company, slots, known, before.slots, procs, x, RESERVED);
      Record(before, Parent(QUIET_ENV), 0);
    }

    /** get_next_shm_index: the first free slot; the branch that gives up is never taken. */
    method GetNextShmIndex(ret: ReturnTo, company: Company) returns (idx: nat)
      requires Valid() && parent == Scan(0, ret)
      modifies this, shm
      ensures Valid() && parent == Forking(idx, ret) && idx < cfg.maxWorker
      ensures workers == old(workers) && jobs == old(jobs) && now == old(now) && lastIncreased == old(lastIncreased)
      ensures Slots()[idx] == RESERVED
      ensures company != Anybody ==> old(Slots())[idx] == FREE && NoneFree(old(Slots()), idx)
      ensures Like(company, old(Slots())[idx := RESERVED], old(procs), Slots(), procs)
    {
      hide After, ChildNext, CountNext, PopulationNext, Like;
      ghost var slots, known := Slots(), procs;
      LikeItself(company, slots, known);
      var x := 0;
      while x < cfg.maxWorker
        invariant 0 <= x <= cfg.maxWorker && Valid() && parent == Scan(x, ret)
        invariant workers == old(workers) && jobs == old(jobs) && now == old(now) && lastIncreased == old(lastIncreased)
        invariant Like(company, slots, known, Slots(), procs)
        invariant company != Anybody ==> NoneFree(slots, x)
      {
        var free := IsFree(x, ret, company, slots, known);
        if free { break; }
        x := x + 1;
      }
      if parent.Scan? {
        AFreeSlotIsAlwaysLeft(cfg, started, events);
        assert false;
      }
      idx := x;
      Reserve(x, ret, company, slots, known);
    }

    /** The fork of make_new_child; `fork` is what the system call answers. */
    method Fork(idx: nat, ret: ReturnTo, fork: int, company: Company,
                ghost slots: seq<int>, ghost known: map<int, Child>) returns (ok: bool)
      requires Valid() && parent == Forking(idx, ret) && idx < cfg.maxWorker
      requires |slots| == cfg.maxWorker && Like(company, slots[idx := RESERVED], known, Slots(), procs)
      modifies this, shm
      ensures Valid() && parent == (if ok then Announce(idx, fork, ret) else Made(ret))
      ensures workers == old(workers) && jobs == old(jobs) && now == old(now) && lastIncreased == old(lastIncreased)
      ensures company != Anybody ==> ok == (fork >= 2 && fork !in known)
      ensures Like(company, slots[idx := if ok then -fork else RESERVED], Kin(known, ok, idx, fork),
                   Announcing(Snapshot()), procs)
    {
      hide After, Next, Like;
      Elsewhere(company, slots[idx := RESERVED], known);
      ghost var before := Snapshot();
      ForkStep(cfg, before, fork);
      LikeForked(company, slots, known, Slots(), procs, idx, fork);
      ok := fork >= 2 && fork !in procs;
      if ok {
        procs := procs[fork := Child(idx, Born)];
        parent := Announce(idx, fork, ret);
      } else {
        parent := Made(ret);
      }
      Record(before, Parent(QUIET_ENV.(fork := fork)), 0);
    }

    /** The parent's write of the negated pid of a new child, which may be ahead of it. */
    method AnnounceChild(idx: nat, pid: int, ret: ReturnTo, company: Company,
                         ghost slots: seq<int>, ghost known: map<int, Child>)
      requires Valid() && parent == Announce(idx, pid, ret) && idx < cfg.maxWorker
      requires Like(company, slots, known, Announcing(Snapshot()), procs)
      modifies this, shm
      ensures Valid() && parent == Made(ret)
      ensures workers == old(workers) && jobs == old(jobs) && now == old(now) && lastIncreased == old(lastIncreased)
      ensures Like(company, slots, known, Slots(), procs)
    {
      hide After, ChildNext, CountNext, PopulationNext, Like;
      Elsewhere(company, slots, known);
      ghost var before := Snapshot();
      shm[idx + SHM_SHIFT] := -pid;
      parent := Made(ret);
      assert Slots() == before.slots[idx := -pid];
      Record(before, Parent(QUIET_ENV), 0);
    }

    /** make_new_child(GM_WORKER_MULTI) */
    method MakeNewChild(ret: ReturnTo, fork: int, company: Company) returns (ok: bool, ghost idx: nat)
      requires Valid() && parent == Scan(0, ret)
      modifies this, shm
      ensures Valid() && parent == Made(ret)
      ensures workers == old(workers) && jobs == old(jobs) && now == old(now) && lastIncreased == old(lastIncreased)
      ensures Grown(company, old(Slots()), old(procs), Slots(), procs, ok, idx, fork)
    {
      hide After, Next, Like;
      ghost var slots, known := Slots(), procs;
      var i := GetNextShmIndex(ret, company);
      idx := i;
      ok := Fork(i, ret, fork, company, slots, known);
      if ok {
        AnnounceChild(i, fork, ret, company, slots[i := -fork], Kin(known, ok, idx, fork));
      }
    }

    /** The first read of slot `x` by count_current_worker. */
    method IsUsed(x: nat, restart: bool, company: Company) returns (used: bool)
      requires Valid() && parent == CountStale(x, restart) && x < cfg.maxWorker
      modifies this, shm
      ensures Valid() && parent == (if used then CountAlive(x, restart) else CountUsed(x, restart))
      ensures workers == old(workers) && jobs == old(jobs) && now == old(now) && lastIncreased == old(lastIncreased)
      ensures Like(company, old(Slots()), old(procs), Slots(), procs)
      ensures company != Anybody ==> used == (old(Slots())[x] != FREE)
    {
      hide After, ChildNext, MakeChildNext, PopulationNext, Like;
      ghost var slots, known := Slots(), procs;
      LikeItself(company, slots, known);
      Elsewhere(company, slots, known);
      ghost var before := Snapshot();
      used := shm[x + SHM_SHIFT] != FREE;
      parent := if used then CountAlive(x, restart) else CountUsed(x, restart);
      Record(before, Parent(QUIET_ENV), 0);
      if company != Anybody { LikeSlot(company, slots, known, Slots(), procs, x); }
    }

    /** Is slot `x` used by nobody who answers?  Two reads of the slot. */
    method IsStale(x: nat, restart: bool, company: Company) returns (stale: bool)
      requires Valid() && parent == CountStale(x, restart) && x < cfg.maxWorker
      modifies this, shm
      ensures Valid() && parent == (if stale then CountReclaim(x, restart) else CountUsed(x, restart))
      ensures workers == old(workers) && jobs == old(jobs) && now == old(now) && lastIncreased == old(lastIncreased)
      ensures Like(company, old(Slots()), old(procs), Slots(), procs)
      ensures company != Anybody ==> stale == !Settled(old(procs), old(Slots())[x])
    {
      hide After, ChildNext, MakeChildNext, PopulationNext, Like;
      ghost var slots, known := Slots(), procs;
      var used := IsUsed(x, restart, company);
      if !used { return false; }
      Elsewhere(company, slots, known);
      ghost var before := Snapshot();
      stale := !Alive(procs, shm[x + SHM_SHIFT]);
      parent := if stale then CountReclaim(x, restart) else CountUsed(x, restart);
      Record(before, Parent(QUIET_ENV), 0);
      if company != Anybody { LikeSlot(company, slots, known, Slots(), procs, x); }
    }

    /** Frees the slot of a stale worker. */
    method FreeSlot(x: nat, restart: bool, company: Company)
      requires Valid() && parent == CountReclaim(x, restart) && x < cfg.maxWorker
      modifies this, shm
      ensures Valid() && parent == if restart then Scan(0, ToCount(x)) else CountUsed(x, restart)
      ensures workers == old(workers) && jobs == old(jobs) && now == old(now) && lastIncreased == old(lastIncreased)
      ensures Like(company, old(Slots())[x := FREE], old(procs), Slots(), procs)
    {
      hide After, ChildNext, MakeChildNext, PopulationNext, Like, Reap, Kill;
      ghost var slots, known := Slots(), procs;
      LikeItself(company, slots, known);
      Elsewhere(company, slots, known);
      ghost var before := Snapshot();
      shm[x + SHM_SHIFT] := FREE;
      parent := if restart then Scan(0, ToCount(x)) else CountUsed(x, restart);
      assert Slots() == before.slots[x := FREE];
      LikePut(company, slots, known, before.slots, procs, x, FREE);
      Record(before, Parent(QUIET_ENV), 0);
    }

    /** Replaces a stale worker at once. */
    method Replace(x: nat, fork: int, company: Company) returns (ok: bool, ghost idx: nat)
      requires Valid() && parent == CountReclaim(x, true) && x < cfg.maxWorker
      modifies this, shm
      ensures Valid() && parent == CountUsed(x, true)
      ensures workers == old(workers) + 1
      ensures jobs == old(jobs) && now == old(now) && lastIncreased == old(lastIncreased)
      ensures Grown(company, old(Slots())[x := FREE], old(procs), Slots(), procs, ok, idx, fork)
    {
      hide After, ChildNext, CountNext, PopulationNext, Like, Grown;
      ghost var slots, known := Slots()[x := FREE], procs;
      FreeSlot(x, true, company);
      ghost var between, meanwhile := Slots(), procs;
      ok, idx := MakeNewChild(ToCount(x), fork, company);
      LikeThenGrown(company, slots, known, between, meanwhile, Slots(), procs, ok, idx, fork);
      ghost var before := Snapshot();
      workers := workers + 1;
      parent := CountUsed(x, true);
      Record(before, Parent(QUIET_ENV), 0);
    }

    method TallyUsed(x: nat, restart: bool, company: Company)
      requires Valid() && parent == CountUsed(x, restart) && x < cfg.maxWorker
      modifies this, shm
      ensures Valid() && parent == CountBusy(x, restart)
      ensures now == old(now) && lastIncreased == old(lastIncreased) && jobs == old(jobs)
      ensures Like(company, old(Slots()), old(procs), Slots(), procs)
      ensures company != Anybody ==> workers == old(workers) + (if old(Slots())[x] != FREE then 1 else 0)
    {
      hide After, ChildNext, MakeChildNext, PopulationNext, Like, Reap, Kill;
      ghost var slots, known := Slots(), procs;
      LikeItself(company, slots, known);
      Elsewhere(company, slots, known);
      ghost var before := Snapshot();
      if company != Anybody { LikeSlot(company, slots, known, Slots(), procs, x); }
      if shm[x + SHM_SHIFT] != FREE { workers := workers + 1; }
      parent := CountBusy(x, restart);
      Record(before, Parent(QUIET_ENV), 0);
    }

    method TallyBusy(x: nat, restart: bool, company: Company)
      requires Valid() && parent == CountBusy(x, restart) && x < cfg.maxWorker
      modifies this, shm
      ensures Valid() && parent == CountStale(x + 1, restart)
      ensures now == old(now) && lastIncreased == old(lastIncreased) && workers == old(workers)
      ensures Like(company, old(Slots()), old(procs), Slots(), procs)
      ensures company != Anybody ==> old(jobs) <= jobs <= old(jobs) + (if Slots()[x] != FREE then 1 else 0)
      ensures company == Nobody ==> jobs == old(jobs) + (if Slots()[x] > 0 then 1 else 0)
    {
      hide After, ChildNext, MakeChildNext, PopulationNext, Like, Reap, Kill;
      LikeItself(company, Slots(), procs);
      Elsewhere(company, Slots(), procs);
      ghost var before := Snapshot();
      if shm[x + SHM_SHIFT] > 0 { jobs := jobs + 1; }
      parent := CountStale(x + 1, restart);
      Record(before, Parent(QUIET_ENV), 0);
    }

    /** Counts slot `x`.  Two more reads. */
    method Tally(x: nat, restart: bool, company: Company)
      requires Valid() && parent == CountUsed(x, restart) && x < cfg.maxWorker
      modifies this, shm
      ensures Valid() && parent == CountStale(x + 1, restart)
      ensures now == old(now) && lastIncreased == old(lastIncreased)
      ensures Like(company, old(Slots()), old(procs), Slots(), procs)
      ensures company != Anybody ==>
        && workers == old(workers) + (if Slots()[x] != FREE then 1 else 0)
        && old(jobs) <= jobs <= old(jobs) + (if Slots()[x] != FREE then 1 else 0)
      ensures company == Nobody ==> jobs == old(jobs) + (if Slots()[x] > 0 then 1 else 0)
    {
      hide After, Next, Like;
      ghost var slots, known := Slots(), procs;
      TallyUsed(x, restart, company);
      ghost var between, meanwhile := Slots(), procs;
      TallyBusy(x, restart, company);
      LikeThen(company, slots, known, between, meanwhile, Slots(), procs);
      if company != Anybody { LikeSlot(company, slots, known, Slots(), procs, x); }
    }

    method CountBegin(restart: bool)
      requires Valid() && parent == CountStart(restart)
      modifies this`workers, this`jobs, this`parent, this`events
      ensures Valid() && parent == CountStale(0, restart) && workers == jobs == 0
    {
      hide After;
      ghost var before := Snapshot();
      workers, jobs, parent := 0, 0, CountStale(0, restart);
      Record(before, Parent(QUIET_ENV), 0);
    }

    /** Publishes the counts in the shared memory. */
    method CountEnd(restart: bool)
      requires Valid() && parent == CountStale(cfg.maxWorker, restart)
      modifies this`parent, this`events, shm
      ensures Valid() && parent == if restart then CheckAge else Sleeping
      ensures shm[SHM_WORKER_TOTAL] == workers && shm[SHM_WORKER_RUNNING] == jobs
      ensures Slots() == old(Slots())
    {
      hide After;
      ghost var before := Snapshot();
      shm[SHM_WORKER_TOTAL], shm[SHM_WORKER_RUNNING] := workers, jobs;
      parent := if restart then CheckAge else Sleeping;
      Record(before, Parent(QUIET_ENV), 0);
    }

    /** One round of count_current_worker(GM_DISABLED). */
    method CountSlot(x: nat, company: Company)
      requires Valid() && parent == CountStale(x, false) && x < cfg.maxWorker
      modifies this, shm
      ensures Valid() && parent == CountStale(x + 1, false)
      ensures company != Anybody ==>
        && Like(company, old(Slots())[x := Reclaimed(old(procs), old(Slots())[x])], old(procs), Slots(), procs)
        && workers == old(workers) + (if Slots()[x] != FREE then 1 else 0)
        && old(jobs) <= jobs <= old(jobs) + (if Slots()[x] != FREE then 1 else 0)
      ensures company == Nobody ==> jobs == old(jobs) + (if Slots()[x] > 0 then 1 else 0)
    {
      hide After, Next, Like;
      ghost var slots, known := Slots(), procs;
      ghost var v := Reclaimed(known, slots[x]);
      var stale := IsStale(x, false, company);
      ghost var between, meanwhile := Slots(), procs;
      if stale {
        FreeSlot(x, false, company);
        LikePut(company, slots, known, between, meanwhile, x, FREE);
        LikeThen(company, slots[x := FREE], known, between[x := FREE], meanwhile, Slots(), procs);
      }
      assert slots[x := slots[x]] == slots;
      assert company != Anybody ==> Like(company, slots[x := v], known, Slots(), procs);
      between, meanwhile := Slots(), procs;
      Tally(x, false, company);
      if company != Anybody { LikeThen(company, slots[x := v], known, between, meanwhile, Slots(), procs); }
    }

    /** count_current_worker(GM_DISABLED): as long as no child is on its exit, exactly the slots of
        living processes stay, and they are counted exactly, the busy ones if no child moves at all. */
    method CountOnly(company: Company)
      requires Valid() && parent == CountStart(false)
      modifies this, shm
      ensures Valid() && parent == Sleeping
      ensures shm[SHM_WORKER_TOTAL] == workers && shm[SHM_WORKER_RUNNING] == jobs
      ensures company != Anybody ==>
        && Like(company, Cleared(old(Slots()), old(procs), cfg.maxWorker), old(procs), Slots(), procs)
        && NoStale(Slots(), procs)
        && workers == UsedSlots() && 0 <= jobs <= workers
      ensures company == Nobody ==> jobs == Busy(Slots(), cfg.maxWorker)
    {
      hide After, Next, Counted, Like;
      ghost var start, known := Slots(), procs;
      CountBegin(false);
      NothingCounted(company, start, procs);
      var x := 0;
      while x < cfg.maxWorker
        invariant 0 <= x <= cfg.maxWorker && Valid() && parent == CountStale(x, false)
        invariant company != Anybody ==> Counted(company, start, known, Slots(), procs, x, workers, jobs)
      {
        ghost var last, was, w, j := Slots(), procs, workers, jobs;
        CountSlot(x, company);
        if company != Anybody {
          CountedNext(company, start, known, last, was, Slots(), procs, x, w, j, workers, jobs);
        }
        x := x + 1;
      }
      CountEnd(false);
      if company != Anybody { AllCounted(company, start, known, Slots(), procs, workers, jobs); }
    }

    /** One round of count_current_worker(GM_ENABLED): the slot is fine, or it is freed and a new child
        takes the first free slot. */
    method CountOrRestart(x: nat, company: Company) returns (stale: bool, ok: bool, ghost idx: nat, ghost pid: int)
      requires Valid() && parent == CountStale(x, true) && x < cfg.maxWorker
      modifies this, shm
      ensures Valid() && parent == CountStale(x + 1, true)
      ensures now == old(now) && lastIncreased == old(lastIncreased)
      ensures company != Anybody ==>
        && stale == !Settled(old(procs), old(Slots())[x])
        && (!stale ==> ok && Like(company, old(Slots()), old(procs), Slots(), procs))
        && (stale ==> Grown(company, old(Slots())[x := FREE], old(procs), Slots(), procs, ok, idx, pid))
        && workers == old(workers) + (if stale then 1 else 0) + (if Slots()[x] != FREE then 1 else 0)
        && old(jobs) <= jobs <= old(jobs) + (if Slots()[x] != FREE then 1 else 0)
      ensures company == Nobody ==> jobs == old(jobs) + (if Slots()[x] > 0 then 1 else 0)
    {
      hide After, Next, Like, Grown;
      ghost var slots, known := Slots(), procs;
      ok, idx, pid := true, 0, 0;
      stale := IsStale(x, true, company);
      ghost var between, meanwhile := Slots(), procs;
      if stale {
        var fork: int := *;
        pid := fork;
        ok, idx := Replace(x, fork, company);
        LikePut(company, slots, known, between, meanwhile, x, FREE);
        LikeThenGrown(company, slots[x := FREE], known, between[x := FREE], meanwhile, Slots(), procs, ok, idx, pid);
      }
      between, meanwhile := Slots(), procs;
      Tally(x, true, company);
      if stale {
        GrownThenLike(company, slots[x := FREE], known, between, meanwhile, Slots(), procs, ok, idx, pid);
      } else {
        LikeThen(company, slots, known, between, meanwhile, Slots(), procs);
      }
    }

    /** count_current_worker(GM_ENABLED): as long as no child is on its exit, the number of used slots
        stays, the count exceeds it by the slots that were restarted in place, and only a failed fork
        leaves a slot that nobody answers for. */
    method CountAndRestart(company: Company) returns (restarts: nat, failed: nat)
      requires Valid() && parent == CountStart(true)
      modifies this, shm
      ensures Valid() && parent == CheckAge
      ensures now == old(now) && lastIncreased == old(lastIncreased)
      ensures shm[SHM_WORKER_TOTAL] == workers && shm[SHM_WORKER_RUNNING] == jobs
      ensures company != Anybody ==>
        && UsedSlots() == old(UsedSlots())
        && workers == UsedSlots() + Doubled(old(Slots()), old(procs), cfg.maxWorker) <= UsedSlots() + restarts
        && (forall i | 0 <= i < cfg.maxWorker ::
              Settled(procs, Slots()[i]) || (failed > 0 && Slots()[i] == RESERVED))
        && (NoStale(old(Slots()), old(procs)) ==>
              restarts == failed == 0 && Like(company, old(Slots()), old(procs), Slots(), procs))
        && 0 <= jobs <= workers
      ensures company == Nobody && NoStale(old(Slots()), old(procs)) ==> jobs == Busy(old(Slots()), cfg.maxWorker)
    {
      hide After, Next, Recounted, Like, Grown, Settled, HoldersOk, Unchanged;
      ghost var start, known := Slots(), procs;
      CountBegin(true);
      restarts, failed := 0, 0;
      NothingRecounted(start, known);
      NothingChanged(company, start, known);
      var x := 0;
      while x < cfg.maxWorker
        invariant 0 <= x <= cfg.maxWorker && Valid() && parent == CountStale(x, true)
        invariant now == old(now) && lastIncreased == old(lastIncreased)
        invariant company != Anybody ==> Recounted(start, known, Slots(), procs, x, workers, restarts, failed)
        invariant company != Anybody ==> 0 <= jobs <= workers
        invariant company != Anybody && NoStale(start, known) ==>
          restarts == failed == 0 && Unchanged(company, start, known, Slots(), procs, x, jobs)
      {
        ghost var last, was, w, j := Slots(), procs, workers, jobs;
        if company != Anybody && NoStale(start, known) { UnchangedHere(company, start, known, last, was, x, j); }
        HoldersOfReachable(cfg, started, events);
        var stale, ok, idx, pid := CountOrRestart(x, company);
        if company != Anybody {
          if NoStale(start, known) { UnchangedNext(company, start, known, last, was, Slots(), procs, x, j, jobs); }
          if stale {
            RestartedNext(company, start, known, last, was, x, w, restarts, failed, Slots(), procs, workers,
                          ok, idx, pid);
          } else {
            SettledNext(company, start, known, last, was, x, w, restarts, failed, Slots(), procs, workers);
          }
        }
        if stale {
          restarts := restarts + 1;
          failed := if ok then failed else failed + 1;
        }
        x := x + 1;
      }
      CountEnd(true);
      if company != Anybody {
        AllRecounted(start, known, Slots(), procs, workers, restarts, failed);
        if NoStale(start, known) { NothingStale(company, start, known, Slots(), procs, x, jobs); }
      }
    }

    /** SIGKILL for whoever is in slot `x`. */
    method KillWorker(x: nat, company: Company)
      requires Valid() && parent == KillRead(x) && x < cfg.maxWorker
      modifies this, shm
      ensures Valid() && parent == KillClear(x)
      ensures company == Nobody ==> shm[SHM_WORKER_LAST_CHECK] == old(shm[SHM_WORKER_LAST_CHECK])
      ensures workers == old(workers) && jobs == old(jobs) && now == old(now) && lastIncreased == old(lastIncreased)
      ensures forall i | 0 <= i < cfg.maxWorker && old(Slots())[i] == FREE :: Slots()[i] == FREE
    {
      hide After, ChildNext, CountNext, MakeChildNext, Reap, Adjust, Like;
      LikeItself(company, Slots(), procs);
      Elsewhere(company, Slots(), procs);
      ghost var before := Snapshot();
      procs := Kill(Snapshot(), shm[x + SHM_SHIFT]).procs;
      parent := KillClear(x);
      Record(before, Parent(QUIET_ENV), 0);
    }

    /** Frees the slot of the worker just killed. */
    method ClearKilled(x: nat, company: Company)
      requires Valid() && parent == KillClear(x) && x < cfg.maxWorker
      modifies this, shm
      ensures Valid() && parent == KillRead(x + 1)
      ensures workers == old(workers) && jobs == old(jobs) && now == old(now) && lastIncreased == old(lastIncreased)
      ensures Slots()[x] == FREE
      ensures company == Nobody ==> shm[SHM_WORKER_LAST_CHECK] == old(shm[SHM_WORKER_LAST_CHECK])
      ensures forall i | 0 <= i < cfg.maxWorker && old(Slots())[i] == FREE :: Slots()[i] == FREE
    {
      hide After, ChildNext, CountNext, MakeChildNext, Reap, Kill, Adjust, Like;
      LikeItself(company, Slots(), procs);
      Elsewhere(company, Slots(), procs);
      ghost var before := Snapshot();
      shm[x + SHM_SHIFT] := FREE;
      parent := KillRead(x + 1);
      assert Slots() == before.slots[x := FREE];
      Record(before, Parent(QUIET_ENV), 0);
    }

    method KillSlot(x: nat, company: Company)
      requires Valid() && parent == KillRead(x) && x < cfg.maxWorker
      modifies this, shm
      ensures Valid() && parent == KillRead(x + 1)
      ensures workers == old(workers) && jobs == old(jobs) && now == old(now) && lastIncreased == old(lastIncreased)
      ensures Slots()[x] == FREE
      ensures company == Nobody ==> shm[SHM_WORKER_LAST_CHECK] == old(shm[SHM_WORKER_LAST_CHECK])
      ensures forall i | 0 <= i < cfg.maxWorker && old(Slots())[i] == FREE :: Slots()[i] == FREE
    {
      hide After, Next;
      KillWorker(x, company);
      ClearKilled(x, company);
    }

    /** The forced restart of check_worker_population: SIGKILL for every slot, then all slots are free,
        whatever the children do.  The SIGINT and the sleep before it are steps of theirs. */
    method KillAll(company: Company)
      requires Valid() && parent == KillRead(0)
      modifies this, shm
      ensures Valid() && parent == Minimum(workers)
      ensures workers == old(workers) && jobs == old(jobs) && now == old(now) && lastIncreased == old(lastIncreased)
      ensures UsedSlots() == 0
      ensures company == Nobody ==> shm[SHM_WORKER_LAST_CHECK] == old(shm[SHM_WORKER_LAST_CHECK])
    {
      hide After, ChildNext, CountNext, MakeChildNext, Reap, Kill, Adjust;
      var x := 0;
      while x < cfg.maxWorker
        invariant 0 <= x <= cfg.maxWorker && Valid() && parent == KillRead(x)
        invariant workers == old(workers) && jobs == old(jobs) && now == old(now)
        invariant lastIncreased == old(lastIncreased)
        invariant company == Nobody ==> shm[SHM_WORKER_LAST_CHECK] == old(shm[SHM_WORKER_LAST_CHECK])
        invariant forall i | 0 <= i < x :: Slots()[i] == FREE
      {
        KillSlot(x, company);
        x := x + 1;
      }
      NothingUsed(Slots());
      ghost var before := Snapshot();
      parent := Minimum(workers);
      Record(before, Parent(QUIET_ENV), 0);
    }

    /** One more worker, for whichever loop asks. */
    method Grow(ret: ReturnTo, company: Company) returns (ok: bool)
      requires Valid() && parent == Scan(0, ret)
      modifies this, shm
      ensures Valid() && parent == Made(ret)
      ensures workers == old(workers) && jobs == old(jobs) && now == old(now) && lastIncreased == old(lastIncreased)
      ensures company != Anybody ==> UsedSlots() == old(UsedSlots()) + 1
      ensures company != Anybody && ok && NoStale(old(Slots()), old(procs)) ==> NoStale(Slots(), procs)
    {
      hide After, Next, Like, Grown, NoStale;
      ghost var last, was := Slots(), procs;
      var fork: int := *;
      ghost var idx;
      ok, idx := MakeNewChild(ret, fork, company);
      if company != Anybody {
        GrownFirst(company, last, was, Slots(), procs, ok, idx, fork);
        GrownUsed(company, last, was, Slots(), procs, ok, idx, fork, cfg.maxWorker);
        if ok && NoStale(last, was) { GrownStale(company, last, was, Slots(), procs, idx, fork); }
      }
    }

    method StartOne(x: nat, company: Company) returns (ok: bool)
      requires Valid() && parent == StartUp(x) && x < cfg.minWorker
      modifies this, shm
      ensures Valid() && parent == StartUp(x + 1)
      ensures company != Anybody ==> UsedSlots() == old(UsedSlots()) + 1
      ensures company != Anybody && ok && NoStale(old(Slots()), old(procs)) ==> NoStale(Slots(), procs)
    {
      hide After, ChildNext, CountNext, Reap, Kill, Adjust;
      ghost var before := Snapshot();
      parent := Scan(0, ToStartUp(x));
      Record(before, Parent(QUIET_ENV), 0);
      ok := Grow(ToStartUp(x), company);
      before := Snapshot();
      parent := StartUp(x + 1);
      Record(before, Parent(QUIET_ENV), 0);
    }

    /** The loop of main that starts the first workers. */
    method StartWorkers(company: Company) returns (failed: nat)
      requires Valid() && parent == StartUp(0)
      modifies this, shm
      ensures Valid() && parent == Sleeping
      ensures company != Anybody ==> UsedSlots() == Max(0, cfg.minWorker)
      ensures company != Anybody && failed == 0 && NoStale(old(Slots()), old(procs)) ==> NoStale(Slots(), procs)
    {
      hide After, ChildNext, CountNext, Reap, Kill, Adjust;
      assert UsedSlots() == 0 by { Reachable(cfg, started, events); }
      failed := 0;
      var x: nat := 0;
      while x < cfg.minWorker
        invariant Valid() && parent == StartUp(x) && (x <= cfg.minWorker || x == 0)
        invariant company != Anybody ==> UsedSlots() == x
        invariant company != Anybody && failed == 0 && NoStale(old(Slots()), old(procs)) ==> NoStale(Slots(), procs)
      {
        var ok := StartOne(x, company);
        failed := if ok then failed else failed + 1;
        x := x + 1;
      }
      ghost var before := Snapshot();
      parent := Sleeping;
      Record(before, Parent(QUIET_ENV), 0);
    }

    method KeepOne(company: Company) returns (ok: bool)
      requires Valid() && parent == Minimum(workers) && workers < cfg.minWorker
      modifies this, shm
      ensures Valid() && parent == Minimum(workers) && workers == old(workers) + 1
      ensures jobs == old(jobs) && now == old(now) && lastIncreased == old(lastIncreased)
      ensures company != Anybody ==> UsedSlots() == old(UsedSlots()) + 1
      ensures company != Anybody && ok && NoStale(old(Slots()), old(procs)) ==> NoStale(Slots(), procs)
    {
      hide After, ChildNext, CountNext, Reap, Kill, Adjust;
      ghost var before := Snapshot();
      var n := workers;
      parent := Scan(0, ToMinimum(n));
      Record(before, Parent(QUIET_ENV), 0);
      ok := Grow(ToMinimum(n), company);
      before := Snapshot();
      workers := workers + 1;
      parent := Minimum(workers);
      Record(before, Parent(QUIET_ENV), 0);
    }

    /** The loop that keeps up the minimum population. */
    method KeepMinimum(company: Company) returns (failed: nat)
      requires Valid() && parent == Minimum(workers)
      modifies this, shm
      ensures Valid() && parent == TopUpDecide
      ensures workers == Max(old(workers), cfg.minWorker)
      ensures jobs == old(jobs) && now == old(now) && lastIncreased == old(lastIncreased)
      ensures company != Anybody ==> UsedSlots() == old(UsedSlots()) + (workers - old(workers))
      ensures company != Anybody && failed == 0 && NoStale(old(Slots()), old(procs)) ==> NoStale(Slots(), procs)
    {
      hide After, ChildNext, CountNext, Reap, Kill, Adjust;
      failed := 0;
      while workers < cfg.minWorker
        invariant Valid() && parent == Minimum(workers)
        invariant old(workers) <= workers <= Max(old(workers), cfg.minWorker)
        invariant jobs == old(jobs) && now == old(now) && lastIncreased == old(lastIncreased)
        invariant company != Anybody ==> UsedSlots() == old(UsedSlots()) + (workers - old(workers))
        invariant company != Anybody && failed == 0 && NoStale(old(Slots()), old(procs)) ==> NoStale(Slots(), procs)
      {
        var ok := KeepOne(company);
        failed := if ok then failed else failed + 1;
      }
      ghost var before := Snapshot();
      parent := TopUpDecide;
      Record(before, Parent(QUIET_ENV), 0);
    }

    /** Whether and how far to top up the pool. */
    method DecideTarget(env: Env) returns (due: bool, target: int)
      requires Valid() && parent == TopUpDecide
      modifies this`parent, this`events
      ensures Valid() && parent == (if due then TopUp(workers, target) else Sleeping)
      ensures due == (lastIncreased < now) && target == Adjust(cfg, workers, jobs, env)
    {
      hide After, ChildNext, CountNext, MakeChildNext, Reap, Kill, Adjust;
      ghost var before := Snapshot();
      due := lastIncreased < now;
      target := Adjust(cfg, workers, jobs, env);
      parent := if due then TopUp(workers, target) else Sleeping;
      Record(before, Parent(env), 0);
    }

    /** One round of the loop that tops up the pool. */
    method TopUpOne(x: int, target: int, company: Company) returns (ok: bool)
      requires Valid() && parent == TopUp(x, target) && x < target
      modifies this, shm
      ensures Valid() && parent == TopUp(x + 1, target)
      ensures workers == old(workers) && jobs == old(jobs) && now == old(now) && lastIncreased == now
      ensures company != Anybody ==> UsedSlots() == old(UsedSlots()) + 1
      ensures company != Anybody && ok && NoStale(old(Slots()), old(procs)) ==> NoStale(Slots(), procs)
    {
      hide After, ChildNext, CountNext, Reap, Kill, Adjust;
      ghost var before := Snapshot();
      lastIncreased := now;
      parent := Scan(0, ToTopUp(x, target));
      Record(before, Parent(QUIET_ENV), 0);
      ok := Grow(ToTopUp(x, target), company);
      before := Snapshot();
      parent := TopUp(x + 1, target);
      Record(before, Parent(QUIET_ENV), 0);
    }

    /** The loop that tops up the pool. */
    method TopUpTo(target: int, company: Company) returns (failed: nat)
      requires Valid() && parent == TopUp(workers, target)
      modifies this, shm
      ensures Valid() && parent == Sleeping
      ensures workers == old(workers) && jobs == old(jobs) && now == old(now)
      ensures lastIncreased == if workers < target then now else old(lastIncreased)
      ensures company != Anybody ==> UsedSlots() == old(UsedSlots()) + Max(0, target - workers)
      ensures company != Anybody && failed == 0 && NoStale(old(Slots()), old(procs)) ==> NoStale(Slots(), procs)
    {
      hide After, Next, Adjust, NoStale;
      failed := 0;
      var x := workers;
      while x < target
        invariant Valid() && parent == TopUp(x, target) && workers <= x <= Max(workers, target)
        invariant lastIncreased == if workers < x then now else old(lastIncreased)
        invariant workers == old(workers) && jobs == old(jobs) && now == old(now)
        invariant company != Anybody ==> UsedSlots() == old(UsedSlots()) + (x - workers)
        invariant company != Anybody && failed == 0 && NoStale(old(Slots()), old(procs)) ==> NoStale(Slots(), procs)
      {
        var ok := TopUpOne(x, target, company);
        failed := if ok then failed else failed + 1;
        x := x + 1;
      }
      EndTopUp(x, target);
    }

    /** The pool is topped up, at most once a second. */
    method KeepUp(env: Env, company: Company) returns (failed: nat)
      requires Valid() && parent == TopUpDecide
      modifies this, shm
      ensures Valid() && parent == Sleeping
      ensures workers == old(workers) && jobs == old(jobs) && now == old(now)
      ensures company != Anybody ==>
        UsedSlots() == old(UsedSlots())
                       + (if old(lastIncreased) < now then Max(0, Adjust(cfg, workers, jobs, env) - workers) else 0)
      ensures company != Anybody && old(lastIncreased) < now && 0 <= jobs <= workers && cfg.minWorker <= workers ==>
        ToppedUp(cfg, env, workers, jobs, workers + (UsedSlots() - old(UsedSlots())))
      ensures company != Anybody ==>
        lastIncreased == if UsedSlots() > old(UsedSlots()) then now else old(lastIncreased)
      ensures company != Anybody && failed == 0 && NoStale(old(Slots()), old(procs)) ==> NoStale(Slots(), procs)
    {
      hide After, Next, Adjust, ToppedUp, NoStale;
      failed := 0;
      if 0 <= jobs <= workers && cfg.minWorker <= workers { TargetIs(cfg, env, workers, jobs); }
      var due, target := DecideTarget(env);
      if due { failed := TopUpTo(target, company); }
    }

    /** The loop has reached its target. */
    method EndTopUp(x: int, target: int)
      requires Valid() && parent == TopUp(x, target) && x >= target
      modifies this`parent, this`events
      ensures Valid() && parent == Sleeping
    {
      hide After, ChildNext, CountNext, Reap, Kill, Adjust;
      ghost var before := Snapshot();
      parent := Sleeping;
      Record(before, Parent(QUIET_ENV), 0);
    }

    /** The start of check_worker_population: collect the dead children. */
    method CollectDead(env: Env, company: Company)
      requires Valid() && parent == Sleeping && !env.stopping
      modifies this, shm
      ensures Valid() && parent == CountStart(true) && now == env.time && lastIncreased == old(lastIncreased)
      ensures Like(company, old(Slots()), Reap(old(procs)), Slots(), procs)
    {
      hide After, ChildNext, CountNext, MakeChildNext, Kill, Adjust, Like;
      ghost var slots, known := Slots(), procs;
      LikeItself(company, slots, known);
      ghost var before := Snapshot();
      now := env.time;
      parent := Reaping(true);
      Record(before, Parent(env), 0);
      Elsewhere(company, slots, known);
      before := Snapshot();
      LikeReap(company, slots, known, Slots(), procs);
      procs := Reap(procs);
      parent := CountStart(true);
      Record(before, Parent(QUIET_ENV), 0);
    }

    /** No check in two minutes?  Then all workers are restarted. */
    method ForceRestart(company: Company) returns (forced: bool)
      requires Valid() && parent == CheckAge
      modifies this, shm
      ensures Valid() && parent == Minimum(workers)
      ensures workers == old(workers) && jobs == old(jobs) && now == old(now) && lastIncreased == old(lastIncreased)
      ensures !forced ==> Like(company, old(Slots()), old(procs), Slots(), procs)
      ensures forced ==> UsedSlots() == 0
      ensures company == Nobody ==>
        && forced == (old(shm[SHM_WORKER_LAST_CHECK]) < now - 120)
        && shm[SHM_WORKER_LAST_CHECK] == if forced then now else old(shm[SHM_WORKER_LAST_CHECK])
    {
      hide After, ChildNext, CountNext, MakeChildNext, Kill, Adjust, Like;
      LikeItself(company, Slots(), procs);
      Elsewhere(company, Slots(), procs);
      ghost var before := Snapshot();
      forced := shm[SHM_WORKER_LAST_CHECK] < now - 120;
      if forced {
        shm[SHM_WORKER_LAST_CHECK] := now;
        parent := KillRead(0);
        Record(before, Parent(QUIET_ENV), 0);
        KillAll(company);
      } else {
        parent := Minimum(workers);
        Record(before, Parent(QUIET_ENV), 0);
      }
    }

    /** Collects the dead children, then counts and restarts. */
    method TakeStock(env: Env, company: Company) returns (failed: nat)
      requires Valid() && parent == Sleeping && !env.stopping
      modifies this, shm
      ensures Valid() && parent == CheckAge && now == env.time && lastIncreased == old(lastIncreased)
      ensures company != Anybody ==>
        && UsedSlots() == old(UsedSlots())
        && workers == UsedSlots() + Doubled(old(Slots()), Reap(old(procs)), cfg.maxWorker)
        && (failed == 0 ==> NoStale(Slots(), procs))
        && 0 <= jobs <= workers
      ensures company == Nobody && NoStale(old(Slots()), Reap(old(procs))) ==> jobs == Busy(old(Slots()), cfg.maxWorker)
    {
      hide After, Next, Like, Settled, Reap, Doubled;
      ghost var slots, known := Slots(), Reap(procs);
      CollectDead(env, company);
      if company != Anybody {
        LikeUsed(company, slots, known, Slots(), procs, cfg.maxWorker);
        LikeDoubled(company, slots, known, Slots(), procs, cfg.maxWorker);
        if company == Nobody { LikeNobody(slots, known, Slots(), procs); }
      }
      var restarts;
      restarts, failed := CountAndRestart(company);
    }

    /** Both loops that add workers. */
    method AddWorkers(env: Env, company: Company) returns (failed: nat)
      requires Valid() && parent == Minimum(workers)
      modifies this, shm
      ensures Valid() && parent == Sleeping && now == old(now) && workers == Max(old(workers), cfg.minWorker)
      ensures jobs == old(jobs)
      ensures company != Anybody ==>
        UsedSlots() == old(UsedSlots()) + (workers - old(workers))
                       + (if old(lastIncreased) < now then Max(0, Adjust(cfg, workers, jobs, env) - workers) else 0)
      ensures company != Anybody && old(lastIncreased) < now && 0 <= jobs <= old(workers) ==>
        ToppedUp(cfg, env, workers, jobs, UsedSlots() - old(UsedSlots()) + old(workers))
      ensures company != Anybody ==>
        lastIncreased == if UsedSlots() > old(UsedSlots()) + (workers - old(workers)) then now else old(lastIncreased)
      ensures company != Anybody && failed == 0 && NoStale(old(Slots()), old(procs)) ==> NoStale(Slots(), procs)
    {
      hide After, Next, NoStale, Adjust, ToppedUp;
      failed := KeepMinimum(company);
      var more := KeepUp(env, company);
      failed := failed + more;
    }

    /** The first half of check_worker_population: what has been counted, and the forced restart. */
    method Survey(env: Env, company: Company) returns (forced: bool, failed: nat)
      requires Valid() && parent == Sleeping && !env.stopping
      modifies this, shm
      ensures Valid() && parent == Minimum(workers) && now == env.time && lastIncreased == old(lastIncreased)
      ensures company != Anybody ==>
        && workers == old(UsedSlots()) + Doubled(old(Slots()), Reap(old(procs)), cfg.maxWorker)
        && UsedSlots() == (if forced then 0 else old(UsedSlots())) && 0 <= jobs <= workers
        && (!forced && failed == 0 ==> NoStale(Slots(), procs))
      ensures company == Nobody && NoStale(old(Slots()), Reap(old(procs))) ==> jobs == Busy(old(Slots()), cfg.maxWorker)
    {
      hide After, Next, Like, NoStale, Reap, Doubled;
      failed := TakeStock(env, company);
      ghost var slots, known := Slots(), procs;
      forced := ForceRestart(company);
      if company != Anybody && !forced {
        LikeUsed(company, slots, known, Slots(), procs, cfg.maxWorker);
        if failed == 0 { LikeStale(company, slots, known, Slots(), procs); }
      }
    }

    /** check_worker_population.  A pass during which no child begins or goes on with its exit first counts
        the used slots, those that are restarted in place twice. What it has counted decides how many
        workers are added. A forced restart empties the table without counting again. With no forced restart
        and no failed fork, there is a living process in every used slot in the end. */
    method CheckWorkerPopulation(env: Env, company: Company) returns (forced: bool, failed: nat)
      requires Valid() && parent == Sleeping && !env.stopping
      modifies this, shm
      ensures Valid() && parent == Sleeping && now == env.time && UsedSlots() <= cfg.maxWorker
      ensures company != Anybody ==>
        var counted := old(UsedSlots()) + Doubled(old(Slots()), Reap(old(procs)), cfg.maxWorker);
        && workers == Max(counted, cfg.minWorker)
        && UsedSlots() == (if forced then 0 else old(UsedSlots())) + (workers - counted)
                          + (if old(lastIncreased) < now then Max(0, Adjust(cfg, workers, jobs, env) - workers) else 0)
      ensures company != Anybody && !forced && NoStale(old(Slots()), Reap(old(procs))) ==>
        && 0 <= jobs <= old(UsedSlots()) && (company == Nobody ==> jobs == Busy(old(Slots()), cfg.maxWorker))
        && (if old(lastIncreased) < now then ToppedUp(cfg, env, Max(old(UsedSlots()), cfg.minWorker), jobs, UsedSlots())
            else UsedSlots() == Max(old(UsedSlots()), cfg.minWorker))
        && lastIncreased == (if UsedSlots() > Max(old(UsedSlots()), cfg.minWorker) then now else old(lastIncreased))
      ensures company != Anybody && !forced ==>
        var doubled := Doubled(old(Slots()), Reap(old(procs)), cfg.maxWorker);
        && (UsedSlots() < cfg.minWorker ==> old(UsedSlots()) < cfg.minWorker && doubled > 0)
        && (old(lastIncreased) >= now ==>
              (UsedSlots() < cfg.minWorker <==> old(UsedSlots()) < cfg.minWorker && doubled > 0))
      ensures company != Anybody && !forced && failed == 0 ==> NoStale(Slots(), procs)
    {
      hide After, Next, NoStale, Reap, Adjust, Doubled, ToppedUp;
      if NoStale(Slots(), Reap(procs)) { NoneDoubled(Slots(), Reap(procs), cfg.maxWorker); }
      var missing, more;
      forced, missing := Survey(env, company);
      more := AddWorkers(env, company);
      failed := missing + more;
      UsedAtMost(Slots(), 0, cfg.maxWorker);
    }

    // ---------------------------------------------------------------- worker_client.c

    /** Any number of steps of everybody but child `me`, and of signals to it. */
    method Others(me: int)
      requires Valid() && me in procs
      modifies this, shm
      ensures Valid() && me in procs && procs[me].slot == old(procs[me].slot) < cfg.maxWorker
      ensures procs[me].pc == old(procs[me].pc) || Leaving(procs[me].pc)
      ensures var was := old(Slots()[procs[me].slot]); was == me || was == -me ==> Kept(Snapshot(), me, was)
    {
      hide After, Next, Inv;
      ghost var was := Slots()[procs[me].slot];
      var n: nat := *;
      while n > 0
        invariant Valid() && me in procs && procs[me].slot == old(procs[me].slot) < cfg.maxWorker
        invariant procs[me].pc == old(procs[me].pc) || Leaving(procs[me].pc)
        invariant was == me || was == -me ==> Kept(Snapshot(), me, was)
      {
        var e: Event, time: int := *, *;
        if !(e.ChildStep? && e.pid == me) {
          ghost var before := Snapshot();
          OthersOnlyEndMe(cfg, before, e, time, me);
          Reachable(cfg, started, events);
          if was == me || was == -me { StillKept(cfg, before, e, time, me, was); }
          var t := Next(cfg, Snapshot(), e, time);
          procs, parent, workers, jobs := t.procs, t.parent, t.workers, t.jobs;
          now, lastIncreased := t.now, t.lastIncreased;
          forall i | 0 <= i < cfg.maxWorker { shm[i + SHM_SHIFT] := t.slots[i]; }
          shm[SHM_WORKER_LAST_CHECK] := t.lastCheck;
          assert shm[SHM_SHIFT..] == t.slots;
          Record(before, e, time);
        }
        n := n - 1;
      }
    }

    /** Moves the program counter of child `me`, which has just made its access. */
    method Proceed(ghost before: State, me: int, pc: ChildPC, time: int)
      requires me in procs && shm.Length == cfg.maxWorker + SHM_SHIFT && Verified(cfg)
      requires before == After(cfg, started, events)
      requires SetPC(Snapshot(), me, pc) == Next(cfg, before, ChildStep(me, false), time)
      modifies this`procs, this`events
      ensures Valid() && procs == old(procs)[me := old(procs)[me].(pc := pc)]
    {
      hide After, Next;
      procs := procs[me := procs[me].(pc := pc)];
      Record(before, ChildStep(me, false), time);
    }

    /** set_state(GM_JOB_START) of worker `me`; false if a signal or its death comes first. */
    method SetStateJobStart(me: int) returns (done: bool)
      requires Valid() && me in procs && procs[me].pc == Idle
      modifies this, shm
      ensures Valid() && me in procs && (!done ==> Leaving(procs[me].pc))
      ensures done ==> procs[me].pc == Working && procs[me].slot < cfg.maxWorker && Slots()[procs[me].slot] == me
    {
      hide After, ParentNext;
      Others(me);
      if procs[me].pc != Idle { return false; }
      ghost var before := Snapshot();
      var i := procs[me].slot;
      assert i < cfg.maxWorker;
      shm[i + SHM_SHIFT] := me;
      assert Slots() == before.slots[i := me];
      Proceed(before, me, Working, 0);
      done := true;
    }

    /** The two comparisons of set_state(GM_JOB_END) with the worker's own pid: one of them holds. */
    method FindMyself(me: int) returns (done: bool)
      requires Valid() && me in procs && procs[me].pc == EndReadPid
      modifies this, shm
      ensures Valid() && me in procs && procs[me].slot == old(procs[me].slot)
      ensures if done then procs[me].pc == EndWrite else Leaving(procs[me].pc)
    {
      hide After, ParentNext;
      Others(me);
      if procs[me].pc != EndReadPid { return false; }
      ghost var before := Snapshot();
      var i := procs[me].slot;
      if shm[i + SHM_SHIFT] != me {
        Proceed(before, me, EndReadNeg, 0);
        Others(me);
        if procs[me].pc != EndReadNeg { return false; }
        before := Snapshot();
        if shm[i + SHM_SHIFT] != -me {
          OwnSlotAtLastLook(cfg, started, events, me);
          assert false;
        }
      }
      Proceed(before, me, EndWrite, 0);
      done := true;
    }

    /** The comparison of set_state(GM_JOB_END) with -1: it never holds. */
    method FindNotFreed(me: int, time: int) returns (done: bool)
      requires Valid() && me in procs && procs[me].pc == Working
      modifies this, shm
      ensures Valid() && me in procs && procs[me].slot == old(procs[me].slot)
      ensures if done then procs[me].pc == EndReadPid else Leaving(procs[me].pc)
    {
      hide After, ParentNext;
      Others(me);
      if procs[me].pc != Working { return false; }
      ghost var before := Snapshot();
      shm[SHM_WORKER_LAST_CHECK] := time;
      Proceed(before, me, EndReadFree, time);
      Others(me);
      if procs[me].pc != EndReadFree { return false; }
      before := Snapshot();
      if shm[procs[me].slot + SHM_SHIFT] == FREE {
        WorkersFindThemselves(cfg, started, events, me);
        assert false;
      }
      Proceed(before, me, EndReadPid, 0);
      done := true;
    }

    /** set_state(GM_JOB_END) of worker `me`: neither error branch is ever taken. */
    method SetStateJobEnd(me: int, time: int) returns (done: bool)
      requires Valid() && me in procs && procs[me].pc == Working
      modifies this, shm
      ensures Valid() && me in procs
      ensures done ==> procs[me].pc == Idle && procs[me].slot < cfg.maxWorker && Slots()[procs[me].slot] == -me
      ensures !done ==> Leaving(procs[me].pc)
    {
      hide After, ParentNext;
      done := FindNotFreed(me, time);
      if !done { return; }
      done := FindMyself(me);
      if !done { return; }
      Others(me);
      if procs[me].pc != EndWrite { return false; }
      ghost var before := Snapshot();
      var i := procs[me].slot;
      shm[i + SHM_SHIFT] := -me;
      assert Slots() == before.slots[i := -me];
      Proceed(before, me, Idle, 0);
    }

    /** Frees the slot the worker has just found itself in. */
    method ClearSlot(me: int) returns (cleared: bool)
      requires Valid() && me in procs && procs[me].pc == ExitClear
      modifies this, shm
      ensures Valid() && me in procs
      ensures if cleared then procs[me].pc == ExitDone else Leaving(procs[me].pc)
      ensures cleared ==> procs[me].slot < cfg.maxWorker && Slots()[procs[me].slot] == FREE
    {
      hide After, ParentNext;
      Others(me);
      if procs[me].pc != ExitClear { return false; }
      ghost var before := Snapshot();
      var i := procs[me].slot;
      shm[i + SHM_SHIFT] := FREE;
      assert Slots() == before.slots[i := FREE];
      Proceed(before, me, ExitDone, 0);
      cleared := true;
    }

    /** The two comparisons of clean_worker_exit with the worker's own pid. */
    method FindMyExit(me: int) returns (found: bool)
      requires Valid() && me in procs && procs[me].pc == ExitReadPid
      modifies this, shm
      ensures Valid() && me in procs && procs[me].slot == old(procs[me].slot)
      ensures if found then procs[me].pc == ExitClear else procs[me].pc == ExitDone || Leaving(procs[me].pc)
      ensures old(Slots()[procs[me].slot] in {me, -me}) && procs[me].pc == ExitDone ==> found
    {
      hide After, ParentNext;
      Others(me);
      if Dead(procs[me].pc) { return false; }
      ghost var before := Snapshot();
      var i := procs[me].slot;
      if shm[i + SHM_SHIFT] != me {
        Proceed(before, me, ExitReadNeg, 0);
        Others(me);
        if procs[me].pc != ExitReadNeg { return false; }
        before := Snapshot();
        if shm[i + SHM_SHIFT] != -me {
          Proceed(before, me, ExitDone, 0);
          return false;
        }
      }
      Proceed(before, me, ExitClear, 0);
      found := true;
    }

    /** The guarded clear of clean_worker_exit. A worker that holds its slot when it gets there frees it, unless
        it is killed or interrupted again on the way. */
    method CleanWorkerExit(me: int) returns (cleared: bool)
      requires Valid() && me in procs && procs[me].pc == ExitReadPid
      modifies this, shm
      ensures Valid() && me in procs
      ensures cleared ==> procs[me].slot < cfg.maxWorker && Slots()[procs[me].slot] == FREE
      ensures procs[me].pc == ExitDone || Leaving(procs[me].pc)
      ensures old(Slots()[procs[me].slot] in {me, -me}) && procs[me].pc == ExitDone ==> cleared
    {
      hide After, ParentNext;
      cleared := FindMyExit(me);
      if cleared { cleared := ClearSlot(me); }
    }
  }
}
