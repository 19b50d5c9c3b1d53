/** The ordered work queue: workers of one btrfs_workqueue interleaving.  Every section under
    list_lock, every bit operation outside the lock and every callback is one atomic step.

    A work item is named by its lifetime (`Id`), because the memory of a freed item can be
    handed out again: `addr` is the address the C code compares.  Each item is executed by one
    worker, so an item and the worker executing it (the code's `self`) share one record. */
module WorkQueue {
  import opened Common

  type Id = nat

  /** What the executing worker does next. */
  datatype Pc =
    | Listed               // list_add_tail done, queue_work not yet called
    | Queued               // handed to the kernel workqueue
    | InFunc               // func(work) is running
    | FuncReturned         // about to set WORK_DONE_BIT
    | Loop                 // about to take list_lock and look at the list head
    | InOrdered(work: Id)  // inside ordered_func(work, false)
    | Unlink(work: Id)     // about to take list_lock and list_del
    | Release(work: Id)    // compares work with self and frees it or remembers to
    | Final                // left the loop
    | Returned

  /** Where an item with an ordered_func is in its life. */
  datatype Stage = OnList | OffList | Freed

  /** addr, ordered_func != NULL, WORK_DONE_BIT, WORK_ORDER_DONE_BIT, whether the memory is still
      the item's own; the worker's position and its local `free_self`; then history only: the
      stage, and the worker that unlinked the item. */
  datatype Task = Task(addr: nat, ordered: bool, done: bool, orderDone: bool, live: bool,
                       pc: Pc, freeSelf: bool, stage: Stage, unlinker: Id)

  /** After `list` comes history only: the orders of list_add_tail, of entering and leaving
      ordered_func(_, false), of list_del and of ordered_func(_, true); the items whose func has
      returned; the worker between claiming the list head and unlinking it. */
  datatype State = State(
    tasks: map<Id, Task>,
    list: seq<Id>,
    queued: seq<Id>,
    started: seq<Id>,
    finished: seq<Id>,
    removed: seq<Id>,
    freed: seq<Id>,
    funcDone: set<Id>,
    claimant: Option<Id>)

  datatype Step =
    | Enqueue(w: Id, addr: nat, ordered: bool)   // btrfs_init_work, btrfs_queue_work up to list_add_tail
    | Run(w: Id)                                 // one atomic step of the worker executing w

  function Init(): State
  {
    State(map[], [], [], [], [], [], [], {}, None)
  }

  /** The worker occupies its address: func has begun and btrfs_work_helper has not returned. */
  predicate Running(t: Task)
  {
    !t.pc.Listed? && !t.pc.Queued? && !t.pc.Returned?
  }

  /** Memory handed to a new item is not in use, and the kernel never runs two work items at one
      address at the same time. */
  ghost predicate Enabled(s: State, step: Step)
  {
    match step
    case Enqueue(w, addr, _) =>
      w !in s.tasks && forall x :: x in s.tasks && s.tasks[x].live ==> s.tasks[x].addr != addr
    case Run(w) =>
      && w in s.tasks
      && !s.tasks[w].pc.Returned?
      && (s.tasks[w].pc.Queued? ==>
            forall x :: x in s.tasks && Running(s.tasks[x]) ==> s.tasks[x].addr != s.tasks[w].addr)
  }

  function Unlinked(list: seq<Id>, x: Id): seq<Id>
  {
    if list == [] then [] else if list[0] == x then list[1..] else [list[0]] + Unlinked(list[1..], x)
  }

  predicate Names(pc: Pc)
  {
    pc.InOrdered? || pc.Unlink? || pc.Release?
  }

  /** Everything a worker or the list names exists. */
  ghost predicate WellKeyed(s: State)
  {
    && (forall w {:trigger s.tasks[w]} :: w in s.tasks && Names(s.tasks[w].pc) ==> s.tasks[w].pc.work in s.tasks)
    && (forall i :: 0 <= i < |s.list| ==> s.list[i] in s.tasks)
  }

  function Enqueued(s: State, w: Id, addr: nat, ordered: bool): State
  {
    s.(tasks := s.tasks[w := Task(addr, ordered, false, false, true, Listed, false, OnList, w)],
       list := if ordered then s.list + [w] else s.list,
       queued := if ordered then s.queued + [w] else s.queued)
  }

  function Put(s: State, w: Id, t: Task): State
  {
    s.(tasks := s.tasks[w := t])
  }

  /** btrfs_work_helper up to set_bit: queue_work, the call of func, its return, WORK_DONE_BIT.
      An item without ordered_func is freed by its own func and not touched afterwards. */
  function RunEarly(s: State, w: Id): State
    requires w in s.tasks
  {
    var t := s.tasks[w];
    match t.pc
    case Listed => Put(s, w, t.(pc := Queued))
    case Queued => Put(s, w, t.(pc := InFunc))
    case InFunc =>
      if t.ordered then Put(s, w, t.(pc := FuncReturned)).(funcDone := s.funcDone + {w})
      else Put(s, w, t.(pc := Returned, live := false))
    case FuncReturned => Put(s, w, t.(pc := Loop, done := true))
    case _ => s
  }

  /** The first locked section of run_ordered_work: leave the loop unless the list head is done and
      unclaimed; else claim it with WORK_ORDER_DONE_BIT and enter its ordered_func. */
  predicate HeadReady(s: State)
    requires WellKeyed(s)
  {
    s.list != [] && s.tasks[s.list[0]].done && !s.tasks[s.list[0]].orderDone
  }

  function RunLoop(s: State, w: Id): State
    requires w in s.tasks && WellKeyed(s)
  {
    if !HeadReady(s) then Put(s, w, s.tasks[w].(pc := Final))
    else
      var x := s.list[0];
      var claimed := Put(s, x, s.tasks[x].(orderDone := true));
      Put(claimed, w, claimed.tasks[w].(pc := InOrdered(x))).(started := s.started + [x], claimant := Some(w))
  }

  /** The second locked section: list_del(&work->ordered_list). */
  function RunUnlink(s: State, w: Id, x: Id): State
    requires w in s.tasks && x in s.tasks
  {
    var unlinked := Put(s, x, s.tasks[x].(stage := OffList, unlinker := w));
    Put(unlinked, w, unlinked.tasks[w].(pc := Release(x)))
      .(list := Unlinked(s.list, x), removed := s.removed + [x], claimant := None)
  }

  /** work == self is a comparison of addresses. */
  function RunRelease(s: State, w: Id, x: Id): State
    requires w in s.tasks && x in s.tasks
  {
    if s.tasks[x].addr == s.tasks[w].addr then Put(s, w, s.tasks[w].(pc := Loop, freeSelf := true))
    else
      var dropped := Put(s, x, s.tasks[x].(live := false, stage := Freed));
      Put(dropped, w, dropped.tasks[w].(pc := Loop)).(freed := s.freed + [x])
  }

  function RunFinal(s: State, w: Id): State
    requires w in s.tasks
  {
    if s.tasks[w].freeSelf then
      Put(s, w, s.tasks[w].(pc := Returned, live := false, stage := Freed)).(freed := s.freed + [w])
    else
      Put(s, w, s.tasks[w].(pc := Returned))
  }

  ghost function Apply(s: State, step: Step): State
    requires WellKeyed(s) && Enabled(s, step)
  {
    match step
    case Enqueue(w, addr, ordered) => Enqueued(s, w, addr, ordered)
    case Run(w) =>
      match s.tasks[w].pc
      case Loop => RunLoop(s, w)
      case InOrdered(x) => Put(s, w, s.tasks[w].(pc := Unlink(x))).(finished := s.finished + [x])
      case Unlink(x) => RunUnlink(s, w, x)
      case Release(x) => RunRelease(s, w, x)
      case Final => RunFinal(s, w)
      case _ => RunEarly(s, w)
  }

  // ---------------------------------------------------------------------------------------------
  // The invariant

  predicate Distinct(q: seq<Id>)
  {
    forall i, j :: 0 <= i < j < |q| ==> q[i] != q[j]
  }

  predicate Early(pc: Pc)
  {
    pc.Listed? || pc.Queued? || pc.InFunc? || pc.FuncReturned?
  }

  /** The worker will look at the list head again before it returns. */
  predicate Looking(pc: Pc)
  {
    pc.Loop? || pc.Release?
  }

  /** Facts about one record alone. */
  predicate TaskOk(t: Task)
  {
    && (t.orderDone ==> t.done)
    && (t.done ==> t.ordered && !Early(t.pc))
    && (t.pc.FuncReturned? ==> t.ordered)
    && (Early(t.pc) ==> t.live && !t.freeSelf)
    && (!Early(t.pc) && t.ordered ==> t.done)
    && (!Early(t.pc) && !t.ordered ==> t.pc.Returned?)
    && (t.ordered ==> (t.live <==> !t.stage.Freed?))
    && (t.stage.OnList? || t.orderDone)
    && (!t.ordered ==> t.stage.OnList?)
    && (t.freeSelf ==> !t.stage.OnList?)
  }

  ghost predicate TaskInv(s: State)
  {
    && (forall w {:trigger s.tasks[w]} :: w in s.tasks ==> TaskOk(s.tasks[w]))
    && (forall w {:trigger s.tasks[w]} :: w in s.tasks && (s.tasks[w].pc.FuncReturned? || s.tasks[w].done) ==>
        w in s.funcDone)
  }

  /** The list is what was queued and not yet removed; only its head can have been claimed. */
  ghost predicate ListInv(s: State)
  {
    && Distinct(s.queued)
    && s.queued == s.removed + s.list
    && (forall i :: 0 <= i < |s.list| ==>
        s.list[i] in s.tasks && s.tasks[s.list[i]].ordered && s.tasks[s.list[i]].stage.OnList?)
    && (forall i :: 0 < i < |s.list| ==> !s.tasks[s.list[i]].orderDone)
    && (forall i :: 0 <= i < |s.removed| ==>
        s.removed[i] in s.tasks && s.tasks[s.removed[i]].ordered && !s.tasks[s.removed[i]].stage.OnList?)
  }

  /** The one worker with a claimed head, and how far ordered_func calls are ahead of list_del. */
  ghost predicate ClaimInv(s: State)
  {
    && (forall w {:trigger s.tasks[w]} :: w in s.tasks && (s.tasks[w].pc.InOrdered? || s.tasks[w].pc.Unlink?) ==>
          s.claimant == Some(w) && s.list != [] && s.tasks[w].pc.work == s.list[0])
    && (s.list != [] && s.list[0] in s.tasks && s.tasks[s.list[0]].orderDone ==> s.claimant.Some?)
    && match s.claimant
       case None => s.started == s.removed && s.finished == s.removed
       case Some(w) =>
         && w in s.tasks
         && s.list != [] && s.list[0] in s.tasks && s.tasks[s.list[0]].orderDone
         && s.started == s.removed + [s.list[0]]
         && (s.tasks[w].pc.InOrdered? || s.tasks[w].pc.Unlink?)
         && (s.tasks[w].pc.InOrdered? ==> s.finished == s.removed)
         && (s.tasks[w].pc.Unlink? ==> s.finished == s.started)
  }

  /** Worker w is the one that must free item x. */
  predicate Frees(w: Id, t: Task, x: Id)
  {
    t.pc == Release(x) || (w == x && t.freeSelf && !t.pc.Returned?)
  }

  /** An unlinked item will be freed by its unlinker, and by nobody else. */
  ghost predicate FreeOk(s: State, x: Id)
    requires x in s.tasks
  {
    var t := s.tasks[x];
    && (t.stage.OffList? ==> t.unlinker in s.tasks && Frees(t.unlinker, s.tasks[t.unlinker], x))
    && (t.freeSelf && !t.pc.Returned? ==> t.stage.OffList? && t.unlinker == x)
    && (t.pc.Release? ==>
          t.pc.work in s.tasks && s.tasks[t.pc.work].stage.OffList? && s.tasks[t.pc.work].unlinker == x
              && !s.tasks[t.pc.work].freeSelf)
  }

  ghost predicate FreeInv(s: State)
  {
    forall x {:trigger FreeOk(s, x)} :: x in s.tasks ==> FreeOk(s, x)
  }

  ghost predicate FreedInv(s: State)
  {
    && Distinct(s.freed)
    && (forall i :: 0 <= i < |s.freed| ==> s.freed[i] in s.tasks && s.tasks[s.freed[i]].stage.Freed?)
    && (forall x {:trigger s.tasks[x]} :: x in s.tasks && s.tasks[x].stage.Freed? ==> x in s.freed)
    && (forall x {:trigger s.tasks[x]} :: x in s.tasks && s.tasks[x].ordered ==> x in s.queued)
  }

  /** Addresses: live items do not collide, and an item that reuses the address of a running
      worker's item has not begun. */
  predicate AddrOk(t: Task, u: Task)
  {
    && (t.live && u.live ==> t.addr != u.addr)
    && (Running(t) && u.live && t.addr == u.addr ==> u.pc.Listed? || u.pc.Queued?)
  }

  ghost predicate AddrInv(s: State)
  {
    forall x, y {:trigger AddrOk(s.tasks[x], s.tasks[y])} :: x in s.tasks && y in s.tasks && x != y ==>
        AddrOk(s.tasks[x], s.tasks[y])
  }

  /** Nobody forgets the head: a worker will look again while the head is done and unclaimed.  (A
      claimed head has its claimant, an unfinished head its own worker still to come.) */
  ghost predicate HandoverInv(s: State)
    requires WellKeyed(s)
  {
    HeadReady(s) ==> exists w :: w in s.tasks && Looking(s.tasks[w].pc)
  }

  ghost predicate Inv(s: State)
  {
    && WellKeyed(s)
    && TaskInv(s)
    && ListInv(s)
    && ClaimInv(s)
    && FreeInv(s)
    && FreedInv(s)
    && AddrInv(s)
    && HandoverInv(s)
  }

  lemma {:induction false} InitInv()
    ensures Inv(Init())
  {
  }

  // ---------------------------------------------------------------------------------------------
  // Preservation.  Most steps of a worker only move its own position: `Quiet`.

  /** A step of w that names no item before or after and leaves the history of w's item alone. */
  ghost predicate Quiet(s: State, s': State, w: Id)
  {
    && w in s.tasks && w in s'.tasks
    && s' == s.(tasks := s.tasks[w := s'.tasks[w]], funcDone := s'.funcDone)
    && s.funcDone <= s'.funcDone
    && var t, t' := s.tasks[w], s'.tasks[w];
       && !Names(t.pc) && !Names(t'.pc) && !t.pc.Returned?
       && TaskOk(t')
       && ((t'.pc.FuncReturned? || t'.done) ==> w in s'.funcDone)
       && t' == t.(pc := t'.pc, done := t'.done, live := t'.live)
       && (t'.live ==> t.live)
       && (t'.pc.Returned? ==> !t.freeSelf)
       && (t'.pc.Listed? ==> t.pc.Listed?)
  }

  lemma {:induction false} QuietKeepsRecords(s: State, s': State, w: Id)
    requires Quiet(s, s', w) && WellKeyed(s) && TaskInv(s) && FreedInv(s)
    ensures WellKeyed(s') && TaskInv(s') && FreedInv(s')
  {
  }

  /** ListInv and ClaimInv read this much of a record. */
  predicate SameForList(t: Task, t': Task)
  {
    && t'.ordered == t.ordered && t'.orderDone == t.orderDone
    && (t'.stage.OnList? <==> t.stage.OnList?)
    && (t.pc.InOrdered? || t.pc.Unlink? || t'.pc.InOrdered? || t'.pc.Unlink? ==> t'.pc == t.pc)
  }

  lemma {:induction false} ListFrame(s: State, s': State)
    requires ListInv(s) && ClaimInv(s) && s'.tasks.Keys == s.tasks.Keys
    requires s'.list == s.list && s'.queued == s.queued && s'.removed == s.removed
    requires s'.started == s.started && s'.finished == s.finished && s'.claimant == s.claimant
    requires forall y {:trigger s'.tasks[y]} {:trigger s.tasks[y]} :: y in s.tasks ==>
            SameForList(s.tasks[y], s'.tasks[y])
    ensures ListInv(s') && ClaimInv(s')
  {
  }

  lemma {:induction false} QuietKeepsList(s: State, s': State, w: Id)
    requires Quiet(s, s', w) && ListInv(s) && ClaimInv(s)
    ensures ListInv(s') && ClaimInv(s')
  {
  }

  /** FreeOk reads this much of a record. */
  predicate SameForFree(t: Task, t': Task)
  {
    && t'.stage == t.stage && t'.unlinker == t.unlinker && t'.freeSelf == t.freeSelf
    && (t'.pc.Release? <==> t.pc.Release?) && (t.pc.Release? ==> t'.pc == t.pc)
    && (t.freeSelf ==> (t'.pc.Returned? <==> t.pc.Returned?))
  }

  lemma {:induction false} FreeFrame(s: State, s': State)
    requires FreeInv(s) && s'.tasks.Keys == s.tasks.Keys
    requires forall y {:trigger s'.tasks[y]} :: y in s.tasks ==> SameForFree(s.tasks[y], s'.tasks[y])
    ensures FreeInv(s')
  {
    forall x | x in s'.tasks
      ensures FreeOk(s', x)
    {
      assert FreeOk(s, x);
    }
  }

  lemma {:induction false} AddrFrame(s: State, s': State)
    requires AddrInv(s) && s'.tasks.Keys == s.tasks.Keys
    requires forall y {:trigger s'.tasks[y]} :: y in s.tasks ==>
      var t, t' := s.tasks[y], s'.tasks[y];
      t'.addr == t.addr && (t'.live ==> t.live) && (Running(t') ==> Running(t))
          && (t.pc.Listed? || t.pc.Queued? ==> t'.pc == t.pc)
    ensures AddrInv(s')
  {
    forall x, y | x in s'.tasks && y in s'.tasks && x != y
      ensures AddrOk(s'.tasks[x], s'.tasks[y])
    {
      assert AddrOk(s.tasks[x], s.tasks[y]);
    }
  }

  lemma {:induction false} QuietKeepsFree(s: State, s': State, w: Id)
    requires Quiet(s, s', w) && FreeInv(s)
    ensures FreeInv(s')
  {
    FreeFrame(s, s');
  }

  lemma {:induction false} QuietKeepsAddr(s: State, s': State, w: Id)
    requires Quiet(s, s', w) && AddrInv(s) && TaskOk(s.tasks[w])
    requires s.tasks[w].pc.Queued? && s'.tasks[w].pc.InFunc? ==> Enabled(s, Run(w))
    requires s.tasks[w].pc.Listed? ==> s'.tasks[w].pc.Queued?
    requires s.tasks[w].pc.Queued? ==> s'.tasks[w].pc.InFunc?
    ensures AddrInv(s')
  {
    forall x, y | x in s'.tasks && y in s'.tasks && x != y
      ensures AddrOk(s'.tasks[x], s'.tasks[y])
    {
      assert AddrOk(s.tasks[x], s.tasks[y]) && AddrOk(s.tasks[y], s.tasks[x]);
    }
  }

  lemma {:induction false} QuietKeepsHandover(s: State, s': State, w: Id)
    requires Quiet(s, s', w) && WellKeyed(s) && WellKeyed(s') && HandoverInv(s)
    requires s'.tasks[w].done && !s.tasks[w].done ==> Looking(s'.tasks[w].pc)
    requires Looking(s.tasks[w].pc) ==> !HeadReady(s)
    ensures HandoverInv(s')
  {
    if HeadReady(s') {
      if HeadReady(s) {
        var v :| v in s.tasks && Looking(s.tasks[v].pc);
        assert v in s'.tasks && Looking(s'.tasks[v].pc);
      } else {
        assert Looking(s'.tasks[w].pc);
      }
    }
  }

  lemma {:induction false} QuietKeepsInv(s: State, s': State, w: Id)
    requires Inv(s) && Quiet(s, s', w)
    requires s.tasks[w].pc.Queued? && s'.tasks[w].pc.InFunc? ==> Enabled(s, Run(w))
    requires s.tasks[w].pc.Listed? ==> s'.tasks[w].pc.Queued?
    requires s.tasks[w].pc.Queued? ==> s'.tasks[w].pc.InFunc?
    requires s'.tasks[w].done && !s.tasks[w].done ==> Looking(s'.tasks[w].pc)
    requires Looking(s.tasks[w].pc) ==> !HeadReady(s)
    ensures Inv(s')
  {
    QuietKeepsRecords(s, s', w);
    QuietKeepsList(s, s', w);
    QuietKeepsFree(s, s', w);
    QuietKeepsAddr(s, s', w);
    QuietKeepsHandover(s, s', w);
  }

  // ---------------------------------------------------------------------------------------------
  // The other steps

  lemma {:induction false} EnqueueKeepsList(s: State, w: Id, addr: nat, ordered: bool)
    requires w !in s.tasks && ListInv(s)
    ensures ListInv(Enqueued(s, w, addr, ordered))
  {
    var s' := Enqueued(s, w, addr, ordered);
    assert forall i :: 0 <= i < |s.queued| ==> s.queued[i] in s.tasks by {
      assert forall i :: 0 <= i < |s.queued| ==>
          s.queued[i] == if i < |s.removed| then s.removed[i] else s.list[i - |s.removed|];
    }
    assert ordered ==> s'.queued == s.removed + (s.list + [w]);
  }

  lemma {:induction false} EnqueueKeepsClaim(s: State, w: Id, addr: nat, ordered: bool)
    requires w !in s.tasks && WellKeyed(s) && ClaimInv(s)
    ensures ClaimInv(Enqueued(s, w, addr, ordered))
  {
  }

  lemma {:induction false} EnqueueKeepsRecords(s: State, w: Id, addr: nat, ordered: bool)
    requires WellKeyed(s) && TaskInv(s) && FreedInv(s) && w !in s.tasks
    ensures WellKeyed(Enqueued(s, w, addr, ordered)) && TaskInv(Enqueued(s, w, addr, ordered))
    ensures FreedInv(Enqueued(s, w, addr, ordered))
  {
  }

  lemma {:induction false} EnqueueKeepsFree(s: State, w: Id, addr: nat, ordered: bool)
    requires FreeInv(s) && AddrInv(s) && TaskInv(s)
    requires Enabled(s, Enqueue(w, addr, ordered))
    ensures FreeInv(Enqueued(s, w, addr, ordered)) && AddrInv(Enqueued(s, w, addr, ordered))
  {
    var s' := Enqueued(s, w, addr, ordered);
    forall x | x in s'.tasks
      ensures FreeOk(s', x)
    {
      assert x != w ==> FreeOk(s, x);
    }
    forall x, y | x in s'.tasks && y in s'.tasks && x != y
      ensures AddrOk(s'.tasks[x], s'.tasks[y])
    {
      assert x != w && y != w ==> AddrOk(s.tasks[x], s.tasks[y]);
    }
  }

  lemma {:induction false} EnqueueKeepsInv(s: State, w: Id, addr: nat, ordered: bool)
    requires Inv(s) && Enabled(s, Enqueue(w, addr, ordered))
    ensures Inv(Enqueued(s, w, addr, ordered))
  {
    var s' := Enqueued(s, w, addr, ordered);
    EnqueueKeepsList(s, w, addr, ordered);
    EnqueueKeepsClaim(s, w, addr, ordered);
    EnqueueKeepsRecords(s, w, addr, ordered);
    EnqueueKeepsFree(s, w, addr, ordered);
    if HeadReady(s') {
      assert HeadReady(s);
      var v :| v in s.tasks && Looking(s.tasks[v].pc);
      assert v in s'.tasks && Looking(s'.tasks[v].pc);
    }
  }

  /** Distinct(queued) carries over to its two halves. */
  lemma {:induction false} ListDistinct(s: State)
    requires ListInv(s)
    ensures Distinct(s.list) && Distinct(s.removed)
    ensures forall i, j :: 0 <= i < |s.removed| && 0 <= j < |s.list| ==> s.removed[i] != s.list[j]
  {
    assert forall i :: 0 <= i < |s.list| ==> s.list[i] == s.queued[|s.removed| + i];
    assert forall i :: 0 <= i < |s.removed| ==> s.removed[i] == s.queued[i];
  }

  lemma {:induction false} ClaimKeepsRecords(s: State, w: Id)
    requires w in s.tasks && s.tasks[w].pc.Loop? && WellKeyed(s) && HeadReady(s) && TaskInv(s)
    ensures WellKeyed(RunLoop(s, w)) && TaskInv(RunLoop(s, w))
  {
  }

  lemma {:induction false} ClaimKeepsFreed(s: State, w: Id)
    requires w in s.tasks && s.tasks[w].pc.Loop? && WellKeyed(s) && HeadReady(s) && FreedInv(s)
    ensures FreedInv(RunLoop(s, w))
  {
  }

  lemma {:induction false} ClaimKeepsList(s: State, w: Id)
    requires w in s.tasks && s.tasks[w].pc.Loop? && WellKeyed(s) && HeadReady(s)
    requires ListInv(s) && ClaimInv(s)
    ensures ListInv(RunLoop(s, w)) && ClaimInv(RunLoop(s, w))
  {
    ListDistinct(s);
  }

  lemma {:induction false} ClaimKeepsFree(s: State, w: Id)
    requires w in s.tasks && s.tasks[w].pc.Loop? && WellKeyed(s) && HeadReady(s)
    requires FreeInv(s) && AddrInv(s)
    ensures FreeInv(RunLoop(s, w)) && AddrInv(RunLoop(s, w))
  {
    FreeFrame(s, RunLoop(s, w));
    AddrFrame(s, RunLoop(s, w));
  }

  lemma {:induction false} LoopKeepsInv(s: State, w: Id)
    requires Inv(s) && w in s.tasks && s.tasks[w].pc.Loop?
    ensures Inv(RunLoop(s, w))
  {
    if HeadReady(s) {
      ClaimKeepsRecords(s, w);
      ClaimKeepsFreed(s, w);
      ClaimKeepsList(s, w);
      ClaimKeepsFree(s, w);
    } else {
      QuietKeepsInv(s, RunLoop(s, w), w);
    }
  }

  function OrderedReturned(s: State, w: Id): State
    requires w in s.tasks && s.tasks[w].pc.InOrdered?
  {
    var x := s.tasks[w].pc.work;
    Put(s, w, s.tasks[w].(pc := Unlink(x))).(finished := s.finished + [x])
  }

  lemma {:induction false} OrderedReturnKeepsRecords(s: State, w: Id)
    requires w in s.tasks && s.tasks[w].pc.InOrdered? && WellKeyed(s)
    requires TaskInv(s) && FreedInv(s)
    ensures WellKeyed(OrderedReturned(s, w)) && TaskInv(OrderedReturned(s, w)) && FreedInv(OrderedReturned(s, w))
  {
  }

  lemma {:induction false} OrderedReturnKeepsList(s: State, w: Id)
    requires w in s.tasks && s.tasks[w].pc.InOrdered? && WellKeyed(s)
    requires ListInv(s) && ClaimInv(s)
    ensures ListInv(OrderedReturned(s, w)) && ClaimInv(OrderedReturned(s, w))
  {
  }

  lemma {:induction false} OrderedReturnKeepsFree(s: State, w: Id)
    requires w in s.tasks && s.tasks[w].pc.InOrdered?
    requires FreeInv(s) && AddrInv(s)
    ensures FreeInv(OrderedReturned(s, w)) && AddrInv(OrderedReturned(s, w))
  {
    FreeFrame(s, OrderedReturned(s, w));
    AddrFrame(s, OrderedReturned(s, w));
  }

  lemma {:induction false} OrderedReturnKeepsInv(s: State, w: Id)
    requires Inv(s) && w in s.tasks && s.tasks[w].pc.InOrdered?
    ensures Inv(OrderedReturned(s, w))
  {
    OrderedReturnKeepsRecords(s, w);
    OrderedReturnKeepsList(s, w);
    OrderedReturnKeepsFree(s, w);
  }

  lemma {:induction false} UnlinkKeepsRecords(s: State, w: Id, x: Id)
    requires w in s.tasks && s.tasks[w].pc == Unlink(x) && WellKeyed(s) && TaskInv(s)
    requires s.list != [] && x == s.list[0] && s.tasks[x].orderDone && s.tasks[x].stage.OnList?
    ensures WellKeyed(RunUnlink(s, w, x)) && TaskInv(RunUnlink(s, w, x))
  {
  }

  lemma {:induction false} UnlinkKeepsFreed(s: State, w: Id, x: Id)
    requires w in s.tasks && s.tasks[w].pc == Unlink(x) && x in s.tasks && s.tasks[x].stage.OnList? && FreedInv(s)
    ensures FreedInv(RunUnlink(s, w, x))
  {
  }

  lemma {:induction false} UnlinkKeepsList(s: State, w: Id, x: Id)
    requires w in s.tasks && s.tasks[w].pc == Unlink(x) && s.list != [] && x == s.list[0] && ListInv(s)
    ensures ListInv(RunUnlink(s, w, x))
  {
    ListDistinct(s);
    assert s.removed + s.list == (s.removed + [x]) + s.list[1..];
  }

  lemma {:induction false} UnlinkKeepsClaim(s: State, w: Id, x: Id)
    requires w in s.tasks && s.tasks[w].pc == Unlink(x) && WellKeyed(s)
    requires ListInv(s) && ClaimInv(s)
    ensures ClaimInv(RunUnlink(s, w, x))
  {
    ListDistinct(s);
  }

  lemma {:induction false} UnlinkKeepsFree(s: State, w: Id, x: Id)
    requires w in s.tasks && s.tasks[w].pc == Unlink(x) && x in s.tasks && s.tasks[x].stage.OnList?
    requires TaskOk(s.tasks[x])
    requires FreeInv(s) && AddrInv(s)
    ensures FreeInv(RunUnlink(s, w, x)) && AddrInv(RunUnlink(s, w, x))
  {
    var s' := RunUnlink(s, w, x);
    AddrFrame(s, s');
    forall y | y in s'.tasks
      ensures FreeOk(s', y)
    {
      assert FreeOk(s, y);
    }
  }

  lemma {:induction false} UnlinkKeepsInv(s: State, w: Id, x: Id)
    requires Inv(s) && w in s.tasks && s.tasks[w].pc == Unlink(x)
    ensures Inv(RunUnlink(s, w, x))
  {
    UnlinkKeepsRecords(s, w, x);
    UnlinkKeepsFreed(s, w, x);
    UnlinkKeepsList(s, w, x);
    UnlinkKeepsClaim(s, w, x);
    UnlinkKeepsFree(s, w, x);
    var s' := RunUnlink(s, w, x);
    assert w in s'.tasks && Looking(s'.tasks[w].pc);
  }

  /** Comparing addresses is comparing items: the item a worker is about to release is its own
      exactly when it lies at its own address, although memory is reused. */
  lemma {:induction false} AddressIsIdentity(s: State, w: Id)
    requires Inv(s) && w in s.tasks && s.tasks[w].pc.Release?
    ensures s.tasks[s.tasks[w].pc.work].addr == s.tasks[w].addr <==> s.tasks[w].pc.work == w
  {
    var x := s.tasks[w].pc.work;
    assert FreeOk(s, w) && TaskOk(s.tasks[x]);
    assert x != w ==> AddrOk(s.tasks[w], s.tasks[x]);
  }

  lemma {:induction false} ReleaseKeepsRecords(s: State, w: Id, x: Id)
    requires w in s.tasks && s.tasks[w].pc == Release(x) && WellKeyed(s) && TaskInv(s)
    requires x in s.tasks && s.tasks[x].stage.OffList? && (s.tasks[x].addr == s.tasks[w].addr <==> x == w)
    ensures WellKeyed(RunRelease(s, w, x)) && TaskInv(RunRelease(s, w, x))
  {
  }

  lemma {:induction false} ReleaseLooksSame(s: State, w: Id, x: Id)
    requires w in s.tasks && s.tasks[w].pc == Release(x)
    requires x in s.tasks && s.tasks[x].stage.OffList?
    ensures var s' := RunRelease(s, w, x);
      s'.tasks.Keys == s.tasks.Keys &&
      forall y {:trigger s'.tasks[y]} {:trigger s.tasks[y]} :: y in s.tasks ==> SameForList(s.tasks[y], s'.tasks[y])
  {
  }

  lemma {:induction false} ReleaseKeepsList(s: State, w: Id, x: Id)
    requires w in s.tasks && s.tasks[w].pc == Release(x) && ListInv(s) && ClaimInv(s)
    requires x in s.tasks && s.tasks[x].stage.OffList?
    ensures ListInv(RunRelease(s, w, x)) && ClaimInv(RunRelease(s, w, x))
  {
    ReleaseLooksSame(s, w, x);
    ListFrame(s, RunRelease(s, w, x));
  }

  lemma {:induction false} ReleaseKeepsFree(s: State, w: Id, x: Id)
    requires w in s.tasks && s.tasks[w].pc == Release(x) && FreeInv(s) && AddrInv(s)
    requires x in s.tasks && s.tasks[x].stage.OffList? && (s.tasks[x].addr == s.tasks[w].addr <==> x == w)
    ensures FreeInv(RunRelease(s, w, x)) && AddrInv(RunRelease(s, w, x))
  {
    var s' := RunRelease(s, w, x);
    AddrFrame(s, s');
    forall y | y in s'.tasks
      ensures FreeOk(s', y)
    {
      assert FreeOk(s, y) && FreeOk(s, w) && FreeOk(s, x);
    }
  }

  lemma {:induction false} ReleaseKeepsFreed(s: State, w: Id, x: Id)
    requires w in s.tasks && s.tasks[w].pc == Release(x) && FreedInv(s)
    requires x in s.tasks && s.tasks[x].stage.OffList?
    ensures FreedInv(RunRelease(s, w, x))
  {
    if s.tasks[x].addr != s.tasks[w].addr {
      FreeOne(s, RunRelease(s, w, x), x);
    }
  }

  /** One more item is freed. */
  lemma {:induction false} FreeOne(s: State, s': State, x: Id)
    requires FreedInv(s) && x in s.tasks && !s.tasks[x].stage.Freed? && s'.tasks.Keys == s.tasks.Keys
    requires s'.freed == s.freed + [x] && s'.queued == s.queued && s'.tasks[x].stage.Freed?
    requires forall y {:trigger s'.tasks[y]} :: y in s.tasks ==>
            s'.tasks[y].ordered == s.tasks[y].ordered && (y != x ==> s'.tasks[y].stage == s.tasks[y].stage)
    ensures FreedInv(s')
  {
  }

  lemma {:induction false} ReleaseKeepsInv(s: State, w: Id, x: Id)
    requires Inv(s) && w in s.tasks && s.tasks[w].pc == Release(x)
    ensures Inv(RunRelease(s, w, x))
  {
    AddressIsIdentity(s, w);
    assert FreeOk(s, w);
    ReleaseKeepsRecords(s, w, x);
    ReleaseKeepsList(s, w, x);
    ReleaseKeepsFree(s, w, x);
    ReleaseKeepsFreed(s, w, x);
    var s' := RunRelease(s, w, x);
    assert w in s'.tasks && Looking(s'.tasks[w].pc);
  }

  lemma {:induction false} FinalKeepsRecords(s: State, w: Id)
    requires w in s.tasks && s.tasks[w].pc.Final? && s.tasks[w].freeSelf && WellKeyed(s)
    requires TaskInv(s) && FreedInv(s) && s.tasks[w].stage.OffList?
    ensures WellKeyed(RunFinal(s, w)) && TaskInv(RunFinal(s, w)) && FreedInv(RunFinal(s, w))
  {
  }

  lemma {:induction false} FinalKeepsList(s: State, w: Id)
    requires w in s.tasks && s.tasks[w].pc.Final? && s.tasks[w].stage.OffList?
    requires ListInv(s) && ClaimInv(s)
    ensures ListInv(RunFinal(s, w)) && ClaimInv(RunFinal(s, w))
  {
  }

  lemma {:induction false} FinalKeepsFree(s: State, w: Id)
    requires w in s.tasks && s.tasks[w].pc.Final? && s.tasks[w].freeSelf
    requires FreeInv(s) && AddrInv(s)
    ensures FreeInv(RunFinal(s, w)) && AddrInv(RunFinal(s, w))
  {
    var s' := RunFinal(s, w);
    AddrFrame(s, s');
    forall y | y in s'.tasks
      ensures FreeOk(s', y)
    {
      assert FreeOk(s, y) && FreeOk(s, w);
    }
  }

  lemma {:induction false} FinalKeepsInv(s: State, w: Id)
    requires Inv(s) && w in s.tasks && s.tasks[w].pc.Final?
    ensures Inv(RunFinal(s, w))
  {
    var s' := RunFinal(s, w);
    assert FreeOk(s, w);
    if s.tasks[w].freeSelf {
      FinalKeepsRecords(s, w);
      FinalKeepsList(s, w);
      FinalKeepsFree(s, w);
      if HeadReady(s') {
        assert HeadReady(s);
        var v :| v in s.tasks && Looking(s.tasks[v].pc);
        assert v in s'.tasks && Looking(s'.tasks[v].pc);
      }
    } else {
      QuietKeepsInv(s, s', w);
    }
  }

  lemma {:induction false} EarlyKeepsInv(s: State, w: Id)
    requires Inv(s) && Enabled(s, Run(w)) && Early(s.tasks[w].pc)
    ensures Inv(RunEarly(s, w))
  {
    EarlyIsQuiet(s, w);
    QuietKeepsInv(s, RunEarly(s, w), w);
  }

  lemma {:induction false} EarlyIsQuiet(s: State, w: Id)
    requires w in s.tasks && Early(s.tasks[w].pc) && TaskInv(s)
    ensures Quiet(s, RunEarly(s, w), w)
  {
    assert TaskOk(s.tasks[w]);
  }

  lemma {:induction false} LateKeepsInv(s: State, w: Id)
    requires Inv(s) && Enabled(s, Run(w)) && !Early(s.tasks[w].pc)
    ensures Inv(Apply(s, Run(w)))
  {
    match s.tasks[w].pc
    case Loop => LoopKeepsInv(s, w);
    case InOrdered(x) => OrderedReturnKeepsInv(s, w);
    case Unlink(x) => UnlinkKeepsInv(s, w, x);
    case Release(x) => ReleaseKeepsInv(s, w, x);
    case Final => FinalKeepsInv(s, w);
  }

  lemma {:induction false} StepKeepsInv(s: State, step: Step)
    requires Inv(s) && Enabled(s, step)
    ensures Inv(Apply(s, step))
  {
    match step
    case Enqueue(w, addr, ordered) => EnqueueKeepsInv(s, w, addr, ordered);
    case Run(w) =>
      if Early(s.tasks[w].pc) {
        EarlyKeepsInv(s, w);
      } else {
        LateKeepsInv(s, w);
      }
  }

  // ---------------------------------------------------------------------------------------------
  // Runs, and what every run guarantees

  ghost predicate Next(s: State, s': State)
  {
    exists step :: WellKeyed(s) && Enabled(s, step) && s' == Apply(s, step)
  }

  ghost predicate IsRun(run: seq<State>)
  {
    && run != []
    && run[0] == Init()
    && forall i {:trigger Next(run[i], run[i + 1])} :: 0 <= i < |run| - 1 ==> Next(run[i], run[i + 1])
  }

  lemma {:induction false} RunInv(run: seq<State>, i: nat)
    requires IsRun(run) && i < |run|
    ensures Inv(run[i])
  {
    if i == 0 {
      InitInv();
    } else {
      var j := i - 1;
      RunInv(run, j);
      assert Next(run[j], run[j + 1]);
      var step :| WellKeyed(run[j]) && Enabled(run[j], step) && run[j + 1] == Apply(run[j], step);
      StepKeepsInv(run[j], step);
    }
  }

  /** In every run ordered_func(_, false) is entered in queue order, at most once per item, only
      after the item's func returned, and never while another such call is still inside. */
  lemma {:induction false} OrderedInQueueOrder(run: seq<State>, i: nat)
    requires IsRun(run) && i < |run|
    ensures run[i].started <= run[i].queued && Distinct(run[i].started)
    ensures run[i].finished <= run[i].started && |run[i].started| <= |run[i].finished| + 1
    ensures forall x :: x in run[i].started ==> x in run[i].funcDone
  {
    RunInv(run, i);
    var s := run[i];
    ListDistinct(s);
    assert s.started == s.queued[..|s.started|];
    forall k | 0 <= k < |s.started|
      ensures s.started[k] in s.funcDone
    {
      assert s.started[k] == s.queued[k];
      assert k < |s.removed| ==> s.queued[k] == s.removed[k];
      assert TaskOk(s.tasks[s.started[k]]);
    }
  }

  /** Items whose memory the step reads or writes.  list_add_tail and list_del also touch the
      neighbours on the list. */
  ghost function Derefs(s: State, step: Step): set<Id>
    requires WellKeyed(s) && Enabled(s, step)
  {
    match step
    case Enqueue(w, _, ordered) => if ordered && s.list != [] then {s.list[|s.list| - 1]} else {}
    case Run(w) =>
      match s.tasks[w].pc
      case Loop => if s.list != [] then {s.list[0]} else {}
      case InOrdered(x) => {x}
      case Unlink(x) => (set y | y in s.list) + {x}
      case Release(x) => if s.tasks[x].addr == s.tasks[w].addr then {} else {x}
      case Final => if s.tasks[w].freeSelf then {w} else {}
      case _ => {w}
  }

  /** No step of any run touches an item that has been freed. */
  lemma {:induction false} NoUseAfterFree(run: seq<State>, i: nat, step: Step, x: Id)
    requires IsRun(run) && i < |run| && WellKeyed(run[i]) && Enabled(run[i], step)
    requires x in Derefs(run[i], step)
    ensures x in run[i].tasks && run[i].tasks[x].live
  {
    RunInv(run, i);
    var s := run[i];
    if step.Run? {
      assert FreeOk(s, step.w) && TaskOk(s.tasks[step.w]);
    }
    assert x in s.tasks && TaskOk(s.tasks[x]);
  }

  /** ordered_func(_, true) runs at most once per item and only for items taken off the list. */
  lemma {:induction false} FreedAtMostOnce(run: seq<State>, i: nat)
    requires IsRun(run) && i < |run|
    ensures Distinct(run[i].freed)
    ensures forall x :: x in run[i].freed ==> x in run[i].removed
  {
    RunInv(run, i);
    var s := run[i];
    forall x | x in s.freed
      ensures x in s.removed
    {
      assert TaskOk(s.tasks[x]) && x in s.queued;
      assert x !in s.list;
    }
  }

  /** Once every worker has returned, the list is empty, every queued item has had its ordered
      function run to the end and has been freed. */
  lemma {:induction false} Quiescent(run: seq<State>, i: nat)
    requires IsRun(run) && i < |run|
    requires forall w :: w in run[i].tasks ==> run[i].tasks[w].pc.Returned?
    ensures run[i].list == []
    ensures run[i].started == run[i].queued && run[i].finished == run[i].queued
    ensures forall x :: x in run[i].queued <==> x in run[i].freed
  {
    RunInv(run, i);
    var s := run[i];
    assert !HeadReady(s);
    assert s.queued == s.removed;
    FreedAtMostOnce(run, i);
    forall x | x in s.queued
      ensures x in s.freed
    {
      assert FreeOk(s, x);
    }
  }

  /** The protocol cannot get stuck: while some worker has not returned, some worker can step. */
  lemma {:induction false} NoDeadlock(run: seq<State>, i: nat, w: Id)
    requires IsRun(run) && i < |run| && w in run[i].tasks && !run[i].tasks[w].pc.Returned?
    ensures exists v :: Enabled(run[i], Run(v))
  {
    var s := run[i];
    if v :| v in s.tasks && Running(s.tasks[v]) {
      assert Enabled(s, Run(v));
    } else {
      assert Enabled(s, Run(w));
    }
  }

  // ---------------------------------------------------------------------------------------------
  // Without new items every run ends

  /** Steps a worker at this position still has to take, not counting what it does for items on the list. */
  function Rank(pc: Pc): nat
  {
    match pc
    case Listed => 9
    case Queued => 8
    case InFunc => 7
    case FuncReturned => 6
    case Release(_) => 6
    case Loop => 5
    case InOrdered(_) => 4
    case Unlink(_) => 3
    case Final => 1
    case Returned => 0
  }

  ghost function Ranks(tasks: map<Id, Task>, S: set<Id>): nat
    requires S <= tasks.Keys
  {
    if S == {} then 0
    else
      var w :| w in S;
      Rank(tasks[w].pc) + Ranks(tasks, S - {w})
  }

  lemma {:induction false} RanksPick(tasks: map<Id, Task>, S: set<Id>, w: Id)
    requires S <= tasks.Keys && w in S
    ensures Ranks(tasks, S) == Rank(tasks[w].pc) + Ranks(tasks, S - {w})
    decreases S
  {
    var v :| v in S && Ranks(tasks, S) == Rank(tasks[v].pc) + Ranks(tasks, S - {v});
    if v != w {
      RanksPick(tasks, S - {v}, w);
      RanksPick(tasks, S - {w}, v);
      assert S - {v} - {w} == S - {w} - {v};
    }
  }

  lemma {:induction false} RanksSame(tasks: map<Id, Task>, tasks': map<Id, Task>, S: set<Id>)
    requires S <= tasks.Keys && S <= tasks'.Keys && forall v :: v in S ==> tasks'[v].pc == tasks[v].pc
    ensures Ranks(tasks', S) == Ranks(tasks, S)
    decreases S
  {
    if S != {} {
      var v :| v in S;
      RanksPick(tasks, S, v);
      RanksPick(tasks', S, v);
      RanksSame(tasks, tasks', S - {v});
    }
  }

  /** The work left: what every worker has to do, and one more turn of the loop per item on the list. */
  ghost function Work(s: State): nat
  {
    4 * |s.list| + Ranks(s.tasks, s.tasks.Keys)
  }

  /** Only worker w changes its position, and its position and the list together come nearer the end. */
  ghost predicate Nearer(s: State, s': State, w: Id)
  {
    && s'.tasks.Keys == s.tasks.Keys && w in s.tasks
    && (forall v :: v in s.tasks && v != w ==> s'.tasks[v].pc == s.tasks[v].pc)
    && 4 * |s'.list| + Rank(s'.tasks[w].pc) < 4 * |s.list| + Rank(s.tasks[w].pc)
  }

  lemma {:induction false} EarlyNearer(s: State, w: Id)
    requires w in s.tasks && Early(s.tasks[w].pc)
    ensures Nearer(s, RunEarly(s, w), w)
  {
  }

  lemma {:induction false} LoopNearer(s: State, w: Id)
    requires w in s.tasks && WellKeyed(s) && s.tasks[w].pc.Loop?
    ensures Nearer(s, RunLoop(s, w), w)
  {
  }

  lemma {:induction false} UnlinkNearer(s: State, w: Id, x: Id)
    requires w in s.tasks && s.tasks[w].pc == Unlink(x) && s.list != [] && x == s.list[0] && x in s.tasks
    ensures Nearer(s, RunUnlink(s, w, x), w)
  {
    assert Unlinked(s.list, x) == s.list[1..];
  }

  lemma {:induction false} ReleaseNearer(s: State, w: Id, x: Id)
    requires w in s.tasks && s.tasks[w].pc == Release(x) && x in s.tasks
    ensures Nearer(s, RunRelease(s, w, x), w)
  {
  }

  lemma {:induction false} FinalNearer(s: State, w: Id)
    requires w in s.tasks && s.tasks[w].pc.Final?
    ensures Nearer(s, RunFinal(s, w), w)
  {
  }

  lemma {:induction false} LessWork(s: State, s': State, w: Id)
    requires Nearer(s, s', w)
    ensures Work(s') < Work(s)
  {
    RanksPick(s.tasks, s.tasks.Keys, w);
    RanksPick(s'.tasks, s'.tasks.Keys, w);
    RanksSame(s.tasks, s'.tasks, s.tasks.Keys - {w});
  }

  lemma {:induction false} OrderedNearer(s: State, w: Id)
    requires w in s.tasks && s.tasks[w].pc.InOrdered?
    ensures Nearer(s, OrderedReturned(s, w), w)
  {
  }

  lemma {:induction false} LateNearer(s: State, w: Id)
    requires WellKeyed(s) && Enabled(s, Run(w)) && !Early(s.tasks[w].pc)
    requires s.tasks[w].pc.Unlink? ==> s.list != [] && s.tasks[w].pc.work == s.list[0]
    ensures Nearer(s, Apply(s, Run(w)), w)
  {
    match s.tasks[w].pc
    case Loop => LoopNearer(s, w);
    case InOrdered(x) => OrderedNearer(s, w);
    case Unlink(x) => UnlinkNearer(s, w, x);
    case Release(x) => ReleaseNearer(s, w, x);
    case Final => FinalNearer(s, w);
  }

  /** Every step of a worker leaves less work. */
  lemma {:induction false} RunDecreases(s: State, w: Id)
    requires Inv(s) && Enabled(s, Run(w))
    ensures Work(Apply(s, Run(w))) < Work(s)
  {
    if Early(s.tasks[w].pc) {
      EarlyNearer(s, w);
    } else {
      LateNearer(s, w);
    }
    LessWork(s, Apply(s, Run(w)), w);
  }

  /** Some worker takes the step from s to s'. */
  ghost predicate Works(s: State, s': State)
  {
    exists w :: WellKeyed(s) && Enabled(s, Run(w)) && s' == Apply(s, Run(w))
  }

  lemma {:induction false} WorkFalls(s: State, s': State)
    requires Inv(s) && Works(s, s')
    ensures Work(s') < Work(s) && s'.queued == s.queued && Next(s, s')
  {
    var w :| WellKeyed(s) && Enabled(s, Run(w)) && s' == Apply(s, Run(w));
    RunDecreases(s, w);
  }

  /** From state i to state j of a run nothing is queued. */
  ghost predicate NothingQueued(run: seq<State>, i: nat, j: nat)
    requires j < |run|
  {
    forall k {:trigger Works(run[k], run[k + 1])} :: i <= k < j ==> Works(run[k], run[k + 1])
  }

  /** While nothing new is queued a run takes no more steps than there is work. */
  lemma {:induction false} WorkBoundsRun(run: seq<State>, i: nat, j: nat)
    requires IsRun(run) && i <= j < |run| && NothingQueued(run, i, j)
    ensures j - i + Work(run[j]) <= Work(run[i])
  {
    if i < j {
      var k := j - 1;
      WorkBoundsRun(run, i, k);
      RunInv(run, k);
      assert Works(run[k], run[k + 1]);
      WorkFalls(run[k], run[k + 1]);
    }
  }

  /** All workers have returned, and everything queued has been run in order and freed. */
  ghost predicate AtRest(s: State)
  {
    && (forall w :: w in s.tasks ==> s.tasks[w].pc.Returned?)
    && s.list == [] && s.started == s.queued && s.finished == s.queued
    && (forall x :: x in s.queued <==> x in s.freed)
  }

  /** A run in which no worker can go on is at rest. */
  lemma {:induction false} StuckIsQuiescent(run: seq<State>, i: nat)
    requires IsRun(run) && i < |run| && forall w :: !Enabled(run[i], Run(w))
    ensures AtRest(run[i])
  {
    forall w | w in run[i].tasks
      ensures run[i].tasks[w].pc.Returned?
    {
      if !run[i].tasks[w].pc.Returned? {
        NoDeadlock(run, i, w);
      }
    }
    Quiescent(run, i);
  }

  /** Any run, left to its workers, gets there. */
  lemma {:induction false} Drains(run: seq<State>) returns (run': seq<State>)
    requires IsRun(run)
    ensures IsRun(run') && |run| <= |run'| && run'[..|run|] == run && NothingQueued(run', |run| - 1, |run'| - 1)
    ensures AtRest(run'[|run'| - 1]) && run'[|run'| - 1].queued == run[|run| - 1].queued
    decreases Work(run[|run| - 1])
  {
    if w :| Enabled(run[|run| - 1], Run(w)) {
      var next := NextOf(run, w);
      run' := Drains(run + [next]);
      FirstStep(run', run, next);
    } else {
      run' := run;
      StuckIsQuiescent(run, |run| - 1);
    }
  }

  /** The run one step longer. */
  lemma {:induction false} NextOf(run: seq<State>, w: Id) returns (next: State)
    requires IsRun(run) && Enabled(run[|run| - 1], Run(w))
    ensures IsRun(run + [next]) && Works(run[|run| - 1], next)
    ensures Work(next) < Work(run[|run| - 1]) && next.queued == run[|run| - 1].queued
  {
    RunInv(run, |run| - 1);
    next := Apply(run[|run| - 1], Run(w));
    assert Works(run[|run| - 1], next);
    WorkFalls(run[|run| - 1], next);
    Longer(run, next);
  }

  lemma {:induction false} Longer(run: seq<State>, next: State)
    requires IsRun(run) && Next(run[|run| - 1], next)
    ensures IsRun(run + [next])
  {
    var longer := run + [next];
    forall i | 0 <= i < |longer| - 1
      ensures Next(longer[i], longer[i + 1])
    {
      assert i < |run| - 1 ==> Next(run[i], run[i + 1]);
    }
  }

  lemma {:induction false} FirstStep(run': seq<State>, run: seq<State>, next: State)
    requires run != [] && |run'| > |run| && run'[..|run| + 1] == run + [next] && Works(run[|run| - 1], next)
    requires NothingQueued(run', |run|, |run'| - 1)
    ensures NothingQueued(run', |run| - 1, |run'| - 1) && run'[..|run|] == run
  {
    assert run'[..|run|] == run'[..|run| + 1][..|run|];
    assert run'[|run| - 1] == run'[..|run| + 1][|run| - 1] && run'[|run|] == run'[..|run| + 1][|run|];
  }
}
