/** The hand-over of results from the result threads to the core: a linked list under a mutex. */
module ResultList {
  import opened CString

  /** A result; the list node made for it goes by the same number. */
  type Id = nat

  /** Who is inside the mutex, and how far. Any number of threads may be waiting outside. */
  datatype Lock = Unlocked
                | Linking(id: Id)        // new_item->next = list
                | Publishing(id: Id)     // list = new_item
                | Taking                 // tmp_list = list
                | Clearing(tmp: Option<Id>)  // list = NULL

  /** process_check_result_list outside the mutex. */
  datatype Drain = Idle
                 | Wanting
                 | Inside
                 | Looping(tmp: Option<Id>)
                 | Passing(cur: Id, tmp: Option<Id>)
                 | Freeing(cur: Id, tmp: Option<Id>)

  /** `head` and `next` are the memory. The rest records what has happened: what the list and the
      detached batch consist of, which results were published, passed to the core, skipped because
      of termination, and freed. */
  datatype State = State(
    lock: Lock, drain: Drain, head: Option<Id>, next: map<Id, Option<Id>>, terminating: bool,
    issued: set<Id>, waiting: set<Id>, pending: seq<Id>, batch: seq<Id>,
    published: seq<Id>, taken: nat, passed: seq<Id>, skipped: seq<Id>, freed: seq<Id>)

  predicate Init(s: State) {
    s == State(Unlocked, Idle, None, map[], false, {}, {}, [], [], [], 0, [], [], [])
  }

  // mod_gm_add_result_to_list on a result thread

  predicate Issue(s: State, s': State, id: Id) {
    id !in s.issued && s' == s.(issued := s.issued + {id}, waiting := s.waiting + {id})
  }

  predicate Enter(s: State, s': State, id: Id) {
    s.lock == Unlocked && id in s.waiting && s' == s.(lock := Linking(id), waiting := s.waiting - {id})
  }

  predicate Link(s: State, s': State) {
    s.lock.Linking? && s' == s.(lock := Publishing(s.lock.id), next := s.next[s.lock.id := s.head])
  }

  predicate Publish(s: State, s': State) {
    s.lock.Publishing? && s' == s.(lock := Unlocked, head := Some(s.lock.id), pending := [s.lock.id] + s.pending,
                                   published := s.published + [s.lock.id])
  }

  ghost predicate AddNext(s: State, s': State) {
    (exists id: Id :: Issue(s, s', id)) || (exists id: Id :: Enter(s, s', id)) || Link(s, s') || Publish(s, s')
  }

  // process_check_result_list on the core's thread

  predicate Begin(s: State, s': State) {
    s.drain == Idle && s' == s.(drain := Wanting)
  }

  predicate Take(s: State, s': State) {
    || (s.drain == Wanting && s.lock == Unlocked && s' == s.(drain := Inside, lock := Taking))
    || (s.lock == Taking && s' == s.(lock := Clearing(s.head)))
  }

  predicate Detach(s: State, s': State) {
    s.lock.Clearing? && s' == s.(lock := Unlocked, drain := Looping(s.lock.tmp), head := None,
                                 batch := s.pending, pending := [], taken := |s.published|)
  }

  predicate Finish(s: State, s': State) {
    s.drain.Looping? && s.drain.tmp == None && s' == s.(drain := Idle)
  }

  predicate Pick(s: State, s': State) {
    && s.drain.Looping? && s.drain.tmp.Some? && s.drain.tmp.value in s.next && s.batch != []
    && s' == s.(drain := Passing(s.drain.tmp.value, s.next[s.drain.tmp.value]), batch := s.batch[1..])
  }

  predicate Pass(s: State, s': State) {
    && s.drain.Passing?
    && s' == if s.terminating then s.(drain := Freeing(s.drain.cur, s.drain.tmp), skipped := s.skipped + [s.drain.cur])
             else s.(drain := Freeing(s.drain.cur, s.drain.tmp), passed := s.passed + [s.drain.cur])
  }

  predicate Free(s: State, s': State) {
    && s.drain.Freeing?
    && s' == s.(drain := Looping(s.drain.tmp), next := s.next - {s.drain.cur}, freed := s.freed + [s.drain.cur])
  }

  predicate DrainNext(s: State, s': State) {
    Begin(s, s') || Take(s, s') || Detach(s, s') || Finish(s, s') || Pick(s, s') || Pass(s, s') || Free(s, s')
  }

  ghost predicate Next(s: State, s': State) {
    AddNext(s, s') || DrainNext(s, s') || s' == s.(terminating := true)
  }

  // ---------------------------------------------------------------- the invariant

  /** The memory from `head` on is the list `l`. */
  predicate Linked(next: map<Id, Option<Id>>, head: Option<Id>, l: seq<Id>)
    decreases |l|
  {
    if l == [] then head == None
    else head == Some(l[0]) && l[0] in next && Linked(next, next[l[0]], l[1..])
  }

  function One(b: bool): nat {
    if b then 1 else 0
  }

  /** How often a result is somewhere: on its way, in the list, in the batch, in hand, or freed. */
  function Count(s: State, id: Id): nat {
    One(id in s.waiting) + One((s.lock.Linking? || s.lock.Publishing?) && s.lock.id == id)
    + multiset(s.pending)[id] + multiset(s.batch)[id]
    + One((s.drain.Passing? || s.drain.Freeing?) && s.drain.cur == id) + multiset(s.freed)[id]
  }

  /** Every result is in one place, and there once. */
  ghost predicate Placed(s: State) {
    forall id: Id :: Count(s, id) == One(id in s.issued)
  }

  function Reverse(l: seq<Id>): seq<Id> {
    if l == [] then [] else Reverse(l[1..]) + [l[0]]
  }

  predicate Shape(s: State) {
    && Linked(s.next, s.head, s.pending)
    && (s.lock.Publishing? ==> s.lock.id in s.next && s.next[s.lock.id] == s.head)
    && (s.lock == Taking || s.lock.Clearing? <==> s.drain == Inside)
    && (s.lock.Clearing? ==> s.lock.tmp == s.head)
    && (s.drain.Looping? || s.drain.Passing? || s.drain.Freeing? ==> Linked(s.next, s.drain.tmp, s.batch))
    && (s.drain == Idle || s.drain == Wanting || s.drain == Inside ==> s.batch == [])
    && (s.drain.Passing? || s.drain.Freeing? ==> s.drain.cur in s.next)
  }

  predicate Order(s: State) {
    s.taken <= |s.published| && Reverse(s.pending) == s.published[s.taken..]
  }

  /** A result has been passed on or skipped as often as it has been freed, or is about to be. */
  predicate Settled(s: State, id: Id) {
    multiset(s.passed)[id] + multiset(s.skipped)[id] ==
    multiset(s.freed)[id] + One(s.drain.Freeing? && s.drain.cur == id)
  }

  ghost predicate Dealt(s: State) {
    (forall id: Id :: Settled(s, id)) && (!s.terminating ==> s.skipped == [])
  }

  ghost predicate Inv(s: State) {
    Shape(s) && Placed(s) && Order(s) && Dealt(s)
  }

  lemma {:induction false} LinkedAfterWrite(next: map<Id, Option<Id>>, head: Option<Id>, l: seq<Id>,
                                             id: Id, v: Option<Id>)
    requires Linked(next, head, l) && id !in l
    ensures Linked(next[id := v], head, l)
    decreases |l|
  {
    if l != [] { LinkedAfterWrite(next, next[l[0]], l[1..], id, v); }
  }

  lemma {:induction false} LinkedAfterFree(next: map<Id, Option<Id>>, head: Option<Id>, l: seq<Id>, id: Id)
    requires Linked(next, head, l) && id !in l
    ensures Linked(next - {id}, head, l)
    decreases |l|
  {
    if l != [] { LinkedAfterFree(next, next[l[0]], l[1..], id); }
  }

  lemma TakeFirst(l: seq<Id>)
    requires l != []
    ensures multiset(l) == multiset{l[0]} + multiset(l[1..])
  {
    assert l == [l[0]] + l[1..];
  }

  lemma LinkedAfterPublish(next: map<Id, Option<Id>>, head: Option<Id>, l: seq<Id>, id: Id)
    requires Linked(next, head, l) && id in next && next[id] == head
    ensures Linked(next, Some(id), [id] + l)
  {
    assert ([id] + l)[1..] == l;
  }

  lemma ReverseAfterPublish(l: seq<Id>, id: Id)
    ensures Reverse([id] + l) == Reverse(l) + [id]
  {
    assert ([id] + l)[1..] == l;
  }

  lemma LinkedStep(next: map<Id, Option<Id>>, head: Option<Id>, l: seq<Id>)
    requires Linked(next, head, l)
    ensures head == None <==> l == []
    ensures l != [] ==> head == Some(l[0]) && l[0] in next && Linked(next, next[l[0]], l[1..])
  {
  }

  predicate InBatch(s: State) {
    s.drain.Looping? || s.drain.Passing? || s.drain.Freeing?
  }

  lemma CountAfterEnter(s: State, s': State, id: Id, new_: Id)
    requires Count(s, id) == One(id in s.issued) && (Issue(s, s', new_) || Enter(s, s', new_))
    ensures Count(s', id) == One(id in s'.issued)
  {
  }

  lemma CountAfterPublish(s: State, s': State, id: Id)
    requires Link(s, s') || Publish(s, s')
    ensures Count(s', id) == Count(s, id) && s'.issued == s.issued
  {
    if Publish(s, s') { assert multiset(s'.pending) == multiset{s.lock.id} + multiset(s.pending); }
  }

  lemma CountAfterAdd(s: State, s': State, id: Id)
    requires Count(s, id) == One(id in s.issued) && AddNext(s, s')
    ensures Count(s', id) == One(id in s'.issued)
  {
    hide Issue, Enter, Link, Publish, Count;
    if Link(s, s') || Publish(s, s') {
      CountAfterPublish(s, s', id);
    } else {
      var new_: Id :| Issue(s, s', new_) || Enter(s, s', new_);
      CountAfterEnter(s, s', id, new_);
    }
  }

  lemma PlacedAt(s: State, id: Id)
    requires Placed(s)
    ensures Count(s, id) == One(id in s.issued)
  {
  }

  lemma CountAfterDetach(s: State, s': State, id: Id)
    requires Shape(s) && (Begin(s, s') || Take(s, s') || Detach(s, s') || Finish(s, s'))
    ensures Count(s', id) == Count(s, id) && s'.issued == s.issued
  {
    hide Linked;
  }

  lemma CountAfterPick(s: State, s': State, id: Id)
    requires Shape(s) && (Pick(s, s') || Pass(s, s'))
    ensures Count(s', id) == Count(s, id) && s'.issued == s.issued
  {
    hide Linked;
    if Pick(s, s') {
      LinkedStep(s.next, s.drain.tmp, s.batch);
      TakeFirst(s.batch);
    }
  }

  lemma CountAfterFree(s: State, s': State, id: Id)
    requires Free(s, s')
    ensures Count(s', id) == Count(s, id) && s'.issued == s.issued
  {
    assert multiset(s'.freed) == multiset(s.freed) + multiset{s.drain.cur};
  }

  lemma CountAfterDrain(s: State, s': State, id: Id)
    requires Shape(s) && DrainNext(s, s')
    ensures Count(s', id) == Count(s, id) && s'.issued == s.issued
  {
    hide Shape, Begin, Take, Detach, Finish, Pick, Pass, Free, Count;
    if Free(s, s') {
      CountAfterFree(s, s', id);
    } else if Pick(s, s') || Pass(s, s') {
      CountAfterPick(s, s', id);
    } else {
      CountAfterDetach(s, s', id);
    }
  }

  lemma NextKeepsPlaces(s: State, s': State)
    requires Shape(s) && Placed(s) && Next(s, s')
    ensures Placed(s')
  {
    hide Shape, AddNext, DrainNext, Placed, Count;
    forall id: Id ensures Count(s', id) == One(id in s'.issued) {
      PlacedAt(s, id);
      if AddNext(s, s') {
        CountAfterAdd(s, s', id);
      } else if DrainNext(s, s') {
        CountAfterDrain(s, s', id);
      } else {
        CountAfterTermination(s, s', id);
      }
    }
    PlacedDef(s');
  }

  lemma CountAfterTermination(s: State, s': State, id: Id)
    requires s' == s.(terminating := true)
    ensures Count(s', id) == Count(s, id) && s'.issued == s.issued
  {
  }

  lemma PlacedDef(s: State)
    requires forall id: Id :: Count(s, id) == One(id in s.issued)
    ensures Placed(s)
  {
  }

  /** What is in one place is in no other. */
  lemma OnlyThere(s: State, id: Id)
    requires Placed(s)
    ensures (s.lock.Linking? && s.lock.id == id) || (s.drain.Freeing? && s.drain.cur == id) ==>
              id !in s.pending && id !in s.batch
    ensures s.drain.Freeing? && s.drain.cur == id && s.lock.Publishing? ==> s.lock.id != id
  {
    PlacedAt(s, id);
  }

  lemma AddKeepsShape(s: State, s': State)
    requires Shape(s) && Placed(s) && AddNext(s, s')
    ensures Shape(s')
  {
    hide Linked, Placed;
    if Link(s, s') {
      var id := s.lock.id;
      OnlyThere(s, id);
      LinkedAfterWrite(s.next, s.head, s.pending, id, s.head);
      if InBatch(s) { LinkedAfterWrite(s.next, s.drain.tmp, s.batch, id, s.head); }
    } else if Publish(s, s') {
      LinkedAfterPublish(s.next, s.head, s.pending, s.lock.id);
    }
  }

  lemma EmptyList(next: map<Id, Option<Id>>)
    ensures Linked(next, None, []) && Reverse([]) == []
  {
  }

  lemma DrainKeepsShape(s: State, s': State)
    requires Shape(s) && Placed(s) && DrainNext(s, s')
    ensures Shape(s')
  {
    hide Linked, Placed;
    EmptyList(s.next);
    if InBatch(s) { LinkedStep(s.next, s.drain.tmp, s.batch); }
    if Free(s, s') {
      var cur := s.drain.cur;
      OnlyThere(s, cur);
      LinkedAfterFree(s.next, s.head, s.pending, cur);
      LinkedAfterFree(s.next, s.drain.tmp, s.batch, cur);
    }
  }

  lemma NextKeepsOrder(s: State, s': State)
    requires Order(s) && Next(s, s')
    ensures Order(s')
  {
    hide Reverse;
    if Publish(s, s') {
      ReverseAfterPublish(s.pending, s.lock.id);
      assert s'.published[s.taken..] == s.published[s.taken..] + [s.lock.id];
    } else if Detach(s, s') {
      EmptyList(s.next);
    }
  }

  lemma SettledAfterPass(s: State, s': State, id: Id)
    requires Settled(s, id) && (Pass(s, s') || Free(s, s'))
    ensures Settled(s', id)
  {
    var cur := s.drain.cur;
    if Pass(s, s') {
      assert multiset(s.passed + [cur]) == multiset(s.passed) + multiset{cur};
      assert multiset(s.skipped + [cur]) == multiset(s.skipped) + multiset{cur};
    } else {
      assert multiset(s.freed + [cur]) == multiset(s.freed) + multiset{cur};
    }
  }

  lemma SettledOtherwise(s: State, s': State, id: Id)
    requires Shape(s) && Settled(s, id) && Next(s, s') && !Pass(s, s') && !Free(s, s')
    ensures Settled(s', id) && s'.skipped == s.skipped && (s.terminating ==> s'.terminating)
  {
    hide Linked, Next, Shape;
    OtherStep(s, s');
  }

  lemma OtherStep(s: State, s': State)
    requires Shape(s) && Next(s, s') && !Pass(s, s') && !Free(s, s')
    ensures s'.passed == s.passed && s'.skipped == s.skipped && s'.freed == s.freed
    ensures if s.drain.Freeing? then s'.drain == s.drain else !s'.drain.Freeing?
    ensures s.terminating ==> s'.terminating
  {
    hide Linked;
  }

  lemma NextKeepsDealt(s: State, s': State)
    requires Shape(s) && Dealt(s) && Next(s, s')
    ensures Dealt(s')
  {
    hide Shape, Settled, Next;
    forall id: Id ensures Settled(s', id) {
      assert Settled(s, id);
      if Pass(s, s') || Free(s, s') { SettledAfterPass(s, s', id); } else { SettledOtherwise(s, s', id); }
    }
    if !Pass(s, s') && !Free(s, s') {
      assert Settled(s, 0);
      SettledOtherwise(s, s', 0);
    }
  }

  lemma NextKeepsInv(s: State, s': State)
    requires Inv(s) && Next(s, s')
    ensures Inv(s')
  {
    hide Shape, Placed, Order, Dealt, AddNext, DrainNext;
    NextKeepsPlaces(s, s');
    NextKeepsOrder(s, s');
    NextKeepsDealt(s, s');
    if AddNext(s, s') {
      AddKeepsShape(s, s');
    } else if DrainNext(s, s') {
      DrainKeepsShape(s, s');
    } else {
      TerminationKeepsShape(s, s');
    }
  }

  lemma TerminationKeepsShape(s: State, s': State)
    requires Shape(s) && s' == s.(terminating := true)
    ensures Shape(s')
  {
    hide Linked;
  }

  // ---------------------------------------------------------------- runs

  ghost predicate Run(run: seq<State>) {
    && run != [] && Init(run[0])
    && forall i | 0 <= i < |run| - 1 :: Next(run[i], run[i + 1])
  }

  lemma {:induction false} RunKeepsInv(run: seq<State>, i: nat)
    requires Run(run) && i < |run|
    ensures Inv(run[i])
  {
    hide Inv, Next;
    if i == 0 {
      InitHasInv(run[0]);
    } else {
      RunKeepsInv(run, i - 1);
      assert Next(run[i - 1], run[i - 1 + 1]);
      NextKeepsInv(run[i - 1], run[i]);
    }
  }

  lemma InitHasInv(s: State)
    requires Init(s)
    ensures Inv(s)
  {
    EmptyList(s.next);
  }

  ghost predicate Reachable(s: State) {
    exists run: seq<State> :: Run(run) && run[|run| - 1] == s
  }

  lemma ReachableHasInv(s: State)
    requires Reachable(s)
    ensures Inv(s)
  {
    hide Inv, Next;
    var run :| Run(run) && run[|run| - 1] == s;
    RunKeepsInv(run, |run| - 1);
  }

  /** Whatever the threads do: a result is always in exactly one place, it is freed at most once and
      handed to the core at most once, and never handed over while it is still waiting. */
  lemma HandedOverOnce(s: State, id: Id)
    requires Reachable(s)
    ensures Count(s, id) == One(id in s.issued)
    ensures multiset(s.freed)[id] <= 1 && multiset(s.passed)[id] + multiset(s.skipped)[id] <= 1
    ensures id in s.passed ==> id in s.issued && id !in s.waiting && id !in s.pending && id !in s.batch
  {
    ReachableHasInv(s);
    PlacedAt(s, id);
    assert Settled(s, id);
  }

  /** Between two drains no result is left over from the last one: it is on its way, in the list, or
      freed; and unless the module terminates, all that are freed have been passed on, once. */
  lemma DrainedCompletely(s: State, id: Id)
    requires Reachable(s) && s.drain == Idle && id in s.issued
    ensures id in s.waiting || ((s.lock.Linking? || s.lock.Publishing?) && s.lock.id == id)
            || id in s.pending || id in s.freed
    ensures id in s.freed ==> multiset(s.passed)[id] + multiset(s.skipped)[id] == 1
    ensures id in s.freed && !s.terminating ==> multiset(s.passed)[id] == 1
  {
    ReachableHasInv(s);
    PlacedAt(s, id);
    assert Settled(s, id);
  }

  lemma StepAfterTermination(s: State, s': State)
    requires Next(s, s') && s.terminating
    ensures s'.terminating && s'.passed == s.passed
  {
  }

  /** Once the module terminates, nothing is handed to the core any more. */
  lemma {:induction false} NothingPassedAfterTermination(run: seq<State>, i: nat, j: nat)
    requires Run(run) && i <= j < |run| && run[i].terminating
    ensures run[j].terminating && run[j].passed == run[i].passed
    decreases j - i
  {
    hide Next, Init;
    if i < j {
      NothingPassedAfterTermination(run, i, j - 1);
      assert Next(run[j - 1], run[j - 1 + 1]);
      StepAfterTermination(run[j - 1], run[j]);
    }
  }

  /** The list is read only where it has not been freed: the loop can always go on. */
  lemma NeverReadsFreedMemory(s: State)
    requires Reachable(s)
    ensures s.drain.Looping? ==> exists s' :: Finish(s, s') || Pick(s, s')
    ensures s.drain.Freeing? ==> s.drain.cur in s.next
  {
    hide Linked;
    ReachableHasInv(s);
    if s.drain.Looping? {
      LinkedStep(s.next, s.drain.tmp, s.batch);
      if s.batch == [] {
        assert Finish(s, s.(drain := Idle));
      } else {
        assert Pick(s, s.(drain := Passing(s.drain.tmp.value, s.next[s.drain.tmp.value]), batch := s.batch[1..]));
      }
    }
  }

  /** The list holds what has been published since the last drain, newest first. */
  lemma NewestFirst(s: State)
    requires Reachable(s)
    ensures s.taken <= |s.published| && Reverse(s.pending) == s.published[s.taken..]
    ensures Linked(s.next, s.head, s.pending)
  {
    ReachableHasInv(s);
  }

  // ---------------------------------------------------------------- the functions themselves

  /** A list node; it is complete before the list is pointed to it, and never changed. */
  class Node {
    const result: Id
    const next: Node?
    ghost const results: seq<Id>

    constructor (result: Id, next: Node?)
      ensures this.result == result && this.next == next && results == [result] + ListOf(next)
    {
      this.result, this.next := result, next;
      this.results := [result] + ListOf(next);
    }
  }

  ghost function ListOf(n: Node?): seq<Id> {
    if n == null then [] else n.results
  }

  ghost predicate Complete(n: Node?)
    decreases |ListOf(n)|
  {
    n != null ==> n.results == [n.result] + ListOf(n.next) && Complete(n.next)
  }

  lemma EmptyChain()
    ensures Complete(null) && ListOf(null) == []
  {
  }

  lemma FirstNode(n: Node)
    requires Complete(n)
    ensures ListOf(n) == [n.result] + ListOf(n.next) && Complete(n.next)
  {
  }

  lemma NextOfBatch(batch: seq<Id>, i: nat, id: Id, rest: seq<Id>)
    requires i <= |batch| && batch[i..] == [id] + rest
    ensures i < |batch| && batch[i] == id && batch[i + 1..] == rest && batch[..i + 1] == batch[..i] + [id]
  {
    assert batch[i..][1..] == batch[i + 1..] && batch[i..][0] == batch[i];
  }

  class ResultList {
    var head: Node?
    var passed: seq<Id>
    var freed: seq<Id>
    var terminating: bool

    constructor ()
      ensures Valid() && Contents() == [] && passed == [] && freed == [] && !terminating
    {
      head, passed, freed, terminating := null, [], [], false;
    }

    ghost predicate Valid()
      reads this
    {
      Complete(head)
    }

    ghost function Contents(): seq<Id>
      reads this
    {
      ListOf(head)
    }

    method Add(newcheckresult: Id)
      requires Valid()
      modifies this`head
      ensures Valid() && Contents() == [newcheckresult] + old(Contents())
    {
      head := new Node(newcheckresult, head);
    }

    /** What other threads may do while the mutex is free. */
    method Others() returns (ghost added: seq<Id>)
      requires Valid()
      modifies this`head, this`terminating
      ensures Valid() && Contents() == added + old(Contents()) && (old(terminating) ==> terminating)
    {
      hide Complete, ListOf;
      added := [];
      var n: int := *;
      while n > 0
        invariant Valid() && Contents() == added + old(Contents()) && terminating == old(terminating)
      {
        var result: Id := *;
        Add(result);
        assert [result] + (added + old(Contents())) == [result] + added + old(Contents());
        added := [result] + added;
        n := n - 1;
      }
      if * { terminating := true; }
    }

    /** process_check_result_list: everything in the list when it is moved aside is freed, in order,
        and passed to the core first as long as the module does not terminate. What comes in
        meanwhile stays for the next time. */
    method ProcessCheckResultList() returns (ghost batch: seq<Id>, ghost more: seq<Id>, ghost handed: nat)
      requires Valid()
      modifies this
      ensures Valid() && exists late: seq<Id> :: batch == late + old(Contents())
      ensures Contents() == more && freed == old(freed) + batch
      ensures 0 <= handed <= |batch| && passed == old(passed) + batch[..handed] && (!terminating ==> handed == |batch|)
      ensures old(terminating) ==> terminating && handed == 0
    {
      hide Complete, ListOf;
      ghost var late := Others();
      batch, more, handed := Contents(), [], 0;
      var tmp_list := head;
      head := null;
      EmptyChain();
      ghost var i := 0;
      while tmp_list != null
        invariant Valid() && Complete(tmp_list) && Contents() == more
        invariant 0 <= i <= |batch| && ListOf(tmp_list) == batch[i..]
        invariant freed == old(freed) + batch[..i]
        invariant old(terminating) ==> terminating && handed == 0
        invariant 0 <= handed <= i && passed == old(passed) + batch[..handed] && (!terminating ==> handed == i)
        decreases |batch| - i
      {
        var cur := tmp_list;
        FirstNode(cur);
        NextOfBatch(batch, i, cur.result, ListOf(cur.next));
        tmp_list := tmp_list.next;
        ghost var added := Others();
        more := added + more;
        if !terminating {
          passed := passed + [cur.result];
          handed := handed + 1;
        }
        freed := freed + [cur.result];
        i := i + 1;
      }
      EmptyChain();
      assert batch[..i] == batch;
    }
  }
}
