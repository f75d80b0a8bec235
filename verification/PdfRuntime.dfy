/**
 Ownership of the PDF worker (frontend/src/pdfRuntime.ts): documents share one worker,
 closing a document is memoised, and a clear event retires the worker and destroys it
 once every document open at that moment has closed.
 */
module PdfRuntime {
  import opened Common

  type WorkerId = nat
  type TaskId = nat
  type ClearId = nat

  datatype Phase = Live | Closing | Closed

  /** `destroyCalls` counts calls of the underlying destroy. */
  datatype Task = Task(worker: WorkerId, phase: Phase, destroyCalls: nat)

  /** A clear handler that waits for its tasks before it destroys `previous`. */
  datatype Clearing = Clearing(previous: Option<WorkerId>, waiting: set<TaskId>)

  /**
   `worker` and `tasks` are the module variables; `all` holds every task ever opened and
   `retired` every worker a clear has taken away.
   */
  datatype Sys = Sys(worker: Option<WorkerId>, tasks: set<TaskId>, all: map<TaskId, Task>,
                     clears: map<ClearId, Clearing>, retired: set<WorkerId>, destroyed: multiset<WorkerId>)

  const INITIAL := Sys(None, {}, map[], map[], {}, multiset{})

  /** `pdfDocument`: `w` and `t` are the fresh worker and task if they are needed. */
  function OnOpen(s: Sys, w: WorkerId, t: TaskId): Sys {
    var own := if s.worker.Some? then s.worker.value else w;
    s.(worker := Some(own), tasks := s.tasks + {t}, all := s.all[t := Task(own, Live, 0)])
  }

  /** `task.destroy()`: only the first call reaches the underlying destroy. */
  function BeginClosing(k: Task): Task {
    if k.phase == Live then k.(phase := Closing, destroyCalls := k.destroyCalls + 1) else k
  }

  function OnDestroy(s: Sys, t: TaskId): Sys {
    if t in s.all then s.(all := s.all[t := BeginClosing(s.all[t])]) else s
  }

  /** The underlying destroy has resolved or rejected. */
  function OnSettled(s: Sys, t: TaskId): Sys {
    if t in s.all && s.all[t].phase == Closing
    then s.(all := s.all[t := s.all[t].(phase := Closed)], tasks := s.tasks - {t})
    else s
  }

  /** The tasks `ts` are told to close. */
  function CloseThose(all: map<TaskId, Task>, ts: set<TaskId>): map<TaskId, Task> {
    map t | t in all :: if t in ts then BeginClosing(all[t]) else all[t]
  }

  lemma CloseNext(all: map<TaskId, Task>, ts: set<TaskId>, t: TaskId)
    requires t in all && t !in ts
    ensures CloseThose(all, ts)[t] == all[t]
    ensures CloseThose(all, ts + {t}) == CloseThose(all, ts)[t := BeginClosing(all[t])]
  {
  }

  /** The clear event: every registered task is told to close. */
  function OnClear(s: Sys, c: ClearId): Sys {
    Sys(None, s.tasks, CloseThose(s.all, s.tasks),
        s.clears[c := Clearing(s.worker, s.tasks)],
        s.retired + (if s.worker.Some? then {s.worker.value} else {}), s.destroyed)
  }

  predicate AllClosed(s: Sys, ts: set<TaskId>) {
    forall t :: t in ts ==> t in s.all && s.all[t].phase == Closed
  }

  /** All of them have settled: the retired worker, if there was one, is destroyed. */
  function OnAllSettled(s: Sys, c: ClearId): Sys {
    if c in s.clears && AllClosed(s, s.clears[c].waiting) then
      s.(clears := s.clears - {c},
         destroyed := s.destroyed
           + if s.clears[c].previous.Some? then multiset{s.clears[c].previous.value} else multiset{})
    else s
  }

  /** The module, with its variables and handlers. */
  class Runtime {
    var worker: Option<WorkerId>
    var tasks: set<TaskId>
    var all: map<TaskId, Task>
    var clears: map<ClearId, Clearing>
    ghost var retired: set<WorkerId>
    var destroyed: multiset<WorkerId>

    ghost function View(): Sys reads this { Sys(worker, tasks, all, clears, retired, destroyed) }

    ghost predicate Valid() reads this { forall t :: t in tasks ==> t in all }

    constructor ()
      ensures Valid() && View() == INITIAL
    {
      worker, tasks, all, clears, retired, destroyed := None, {}, map[], map[], {}, multiset{};
    }

    method PdfDocument(w: WorkerId, t: TaskId)
      requires Valid()
      modifies this
      ensures Valid() && View() == OnOpen(old(View()), w, t)
    {
      if worker.None? {
        worker := Some(w);
      }
      all := all[t := Task(worker.value, Live, 0)];
      tasks := tasks + {t};
    }

    method Destroy(t: TaskId)
      requires Valid() && t in all
      modifies this
      ensures Valid() && View() == OnDestroy(old(View()), t)
    {
      var task := all[t];
      if task.phase == Live {
        all := all[t := task.(phase := Closing, destroyCalls := task.destroyCalls + 1)];
      }
    }

    method Settled(t: TaskId)
      requires Valid()
      modifies this
      ensures Valid() && View() == OnSettled(old(View()), t)
    {
      if t in all && all[t].phase == Closing {
        all := all[t := all[t].(phase := Closed)];
        tasks := tasks - {t};
      }
    }

    method Clear(c: ClearId)
      requires Valid()
      modifies this
      ensures Valid() && View() == OnClear(old(View()), c)
    {
      var previous := worker;
      worker := None;
      retired := retired + if previous.Some? then {previous.value} else {};
      var left := tasks;
      while left != {}
        invariant left <= tasks == old(tasks) && Valid()
        invariant worker == None && clears == old(clears) && destroyed == old(destroyed)
        invariant retired == old(retired) + if previous.Some? then {previous.value} else {}
        invariant all == CloseThose(old(all), tasks - left)
        decreases |left|
      {
        var t :| t in left;
        CloseNext(old(all), tasks - left, t);
        assert tasks - left + {t} == tasks - (left - {t});
        Destroy(t);
        left := left - {t};
      }
      assert tasks - left == tasks;
      clears := clears[c := Clearing(previous, tasks)];
    }

    method AllSettled(c: ClearId)
      requires Valid() && c in clears && AllClosed(View(), clears[c].waiting)
      modifies this
      ensures Valid() && View() == OnAllSettled(old(View()), c)
    {
      var previous := clears[c].previous;
      clears := clears - {c};
      if previous.Some? {
        destroyed := destroyed + multiset{previous.value};
      }
    }
  }

  // ------------------------------------------------------------ every interleaving

  datatype Event =
    | Open(w: WorkerId, t: TaskId)
    | Destroy(t: TaskId)
    | Settle(t: TaskId)
    | Clear(c: ClearId)
    | Finish(c: ClearId)

  /** Workers, tasks and handlers are new objects each time. */
  predicate New(s: Sys, e: Event) {
    match e
    case Open(w, t) => t !in s.all && (s.worker.None? ==> w !in s.retired)
    case Clear(c) => c !in s.clears
    case _ => true
  }

  function Step(s: Sys, e: Event): Sys {
    match e
    case Open(w, t) => if New(s, e) then OnOpen(s, w, t) else s
    case Destroy(t) => OnDestroy(s, t)
    case Settle(t) => OnSettled(s, t)
    case Clear(c) => if New(s, e) then OnClear(s, c) else s
    case Finish(c) => OnAllSettled(s, c)
  }

  function Run(s: Sys, es: seq<Event>): Sys
    decreases |es|
  {
    if es == [] then s else Run(Step(s, es[0]), es[1..])
  }

  /** Handler `c` is the one that will destroy `w`. */
  predicate Retires(s: Sys, c: ClearId, w: WorkerId) {
    c in s.clears && s.clears[c].previous == Some(w)
  }

  ghost predicate Inv(s: Sys) {
    TasksSound(s) && HandlersUnique(s) && HandlersComplete(s)
  }

  ghost predicate TasksSound(s: Sys) {
    && (forall t :: t in s.tasks <==> t in s.all && s.all[t].phase != Closed)
    && (forall t :: t in s.all ==> TaskSound(s, t))
    && (s.worker.Some? ==> s.worker.value !in s.retired)
    && (forall c :: c in s.clears ==> ClearSound(s, c))
    && (forall w :: w in s.destroyed ==> w in s.retired && s.destroyed[w] == 1)
  }

  ghost predicate HandlersUnique(s: Sys) {
    forall c, d, w :: Retires(s, c, w) && Retires(s, d, w) ==> c == d
  }

  ghost predicate HandlersComplete(s: Sys) {
    forall w :: w in s.retired ==> w in s.destroyed || exists c :: Retires(s, c, w)
  }

  /** A task closes at most once, and its worker outlives it. */
  ghost predicate TaskSound(s: Sys, t: TaskId)
    requires t in s.all
  {
    var k := s.all[t];
    && k.destroyCalls == (if k.phase == Live then 0 else 1)
    && (k.worker in s.retired || s.worker == Some(k.worker))
    && (k.worker in s.destroyed ==> k.phase == Closed)
    && (k.phase != Closed ==> forall c :: Retires(s, c, k.worker) ==> t in s.clears[c].waiting)
  }

  /** A handler waits only for tasks that are already closing. */
  ghost predicate ClearSound(s: Sys, c: ClearId)
    requires c in s.clears
  {
    && (forall t :: t in s.clears[c].waiting ==> t in s.all && s.all[t].phase != Live)
    && (s.clears[c].previous.Some? ==>
          s.clears[c].previous.value in s.retired && s.clears[c].previous.value !in s.destroyed)
  }

  /** How the handlers that retire a worker change in one step. */
  lemma RetiresAfter(s: Sys, e: Event)
    requires Inv(s)
    ensures var s' := Step(s, e);
            && (forall c: ClearId, w: WorkerId :: Retires(s', c, w) ==>
                  Retires(s, c, w) || (e == Clear(c) && New(s, e) && s.worker == Some(w)))
            && (forall c: ClearId, w: WorkerId :: Retires(s, c, w) ==>
                  Retires(s', c, w) || (e == Finish(c) && w in s'.destroyed))
  {
  }

  lemma EveryRetiredWorkerHasItsHandler(s: Sys, e: Event)
    requires Inv(s)
    ensures HandlersComplete(Step(s, e))
  {
    var s' := Step(s, e);
    RetiresAfter(s, e);
    forall w | w in s'.retired ensures w in s'.destroyed || exists c :: Retires(s', c, w) {
      if w in s.retired {
        if w !in s.destroyed {
          var c :| Retires(s, c, w);
          assert Retires(s', c, w) || (e == Finish(c) && w in s'.destroyed);
        }
      } else {
        assert e.Clear? && Retires(s', e.c, w);
      }
    }
  }

  lemma HandlersStayUnique(s: Sys, e: Event)
    requires Inv(s)
    ensures HandlersUnique(Step(s, e))
  {
    var s' := Step(s, e);
    RetiresAfter(s, e);
    forall c, d, w | Retires(s', c, w) && Retires(s', d, w) ensures c == d {
      if Retires(s, c, w) { assert ClearSound(s, c); }
      if Retires(s, d, w) { assert ClearSound(s, d); }
    }
  }

  lemma OpenKeepsTasks(s: Sys, e: Event)
    requires TasksSound(s) && HandlersUnique(s) && e.Open?
    ensures TasksSound(Step(s, e))
  {
  }

  lemma DestroyKeepsTasks(s: Sys, e: Event)
    requires TasksSound(s) && HandlersUnique(s) && e.Destroy?
    ensures TasksSound(Step(s, e))
  {
    var s' := Step(s, e);
    forall t | t in s'.all ensures TaskSound(s', t) {
      assert TaskSound(s, t);
    }
    forall c | c in s'.clears ensures ClearSound(s', c) {
      assert ClearSound(s, c);
    }
  }

  lemma SettleKeepsTasks(s: Sys, e: Event)
    requires TasksSound(s) && HandlersUnique(s) && e.Settle?
    ensures TasksSound(Step(s, e))
  {
  }

  lemma ClearKeepsTasks(s: Sys, e: Event)
    requires TasksSound(s) && HandlersUnique(s) && e.Clear?
    ensures TasksSound(Step(s, e))
  {
    var s' := Step(s, e);
    forall t | t in s'.all ensures TaskSound(s', t) {
      assert TaskSound(s, t);
    }
    forall c | c in s'.clears ensures ClearSound(s', c) {
      if c in s.clears { assert ClearSound(s, c); }
    }
  }

  lemma FinishKeepsTasks(s: Sys, e: Event)
    requires TasksSound(s) && HandlersUnique(s) && e.Finish?
    ensures TasksSound(Step(s, e))
  {
    var s', c := Step(s, e), e.c;
    forall d | d in s'.clears ensures ClearSound(s', d) {
      assert ClearSound(s, d);
      if s.clears[d].previous.Some? && s' != s {
        assert Retires(s, d, s.clears[d].previous.value);
        assert Retires(s, c, s.clears[d].previous.value) ==> d == c;
      }
    }
  }

  lemma TasksStaySound(s: Sys, e: Event)
    requires TasksSound(s) && HandlersUnique(s)
    ensures TasksSound(Step(s, e))
  {
    match e
    case Open(_, _) => OpenKeepsTasks(s, e);
    case Destroy(_) => DestroyKeepsTasks(s, e);
    case Settle(_) => SettleKeepsTasks(s, e);
    case Clear(_) => ClearKeepsTasks(s, e);
    case Finish(_) => FinishKeepsTasks(s, e);
  }

  lemma StepKeepsInv(s: Sys, e: Event)
    requires Inv(s)
    ensures Inv(Step(s, e))
  {
    TasksStaySound(s, e);
    EveryRetiredWorkerHasItsHandler(s, e);
    HandlersStayUnique(s, e);
  }

  lemma {:induction false} InvInEveryRun(s: Sys, es: seq<Event>)
    requires Inv(s)
    ensures Inv(Run(s, es))
    decreases |es|
  {
    if es != [] {
      StepKeepsInv(s, es[0]);
      InvInEveryRun(Step(s, es[0]), es[1..]);
    }
  }

  /**
   For every interleaving: a destroyed worker has only closed tasks and is destroyed
   once; the underlying destroy of a task runs at most once; the shared worker, which the
   next document uses, is never a retired one; and every retired worker is destroyed or
   has exactly one handler left that waits only for tasks that are already closing.
   */
  lemma WorkersOutliveTheirTasks(es: seq<Event>)
    ensures var s := Run(INITIAL, es);
            && (forall t :: t in s.all && s.all[t].worker in s.destroyed ==> s.all[t].phase == Closed)
            && (forall w :: s.destroyed[w] <= 1)
            && (forall t :: t in s.all ==> s.all[t].destroyCalls <= 1)
            && (s.worker.Some? ==> s.worker.value !in s.retired)
            && (forall w :: w in s.retired && w !in s.destroyed ==> exists c :: Retires(s, c, w))
            && (forall c, t :: c in s.clears && t in s.clears[c].waiting ==> t in s.all && s.all[t].phase != Live)
  {
    InvInEveryRun(INITIAL, es);
    var s := Run(INITIAL, es);
    forall c, t | c in s.clears && t in s.clears[c].waiting ensures t in s.all && s.all[t].phase != Live {
      assert ClearSound(s, c);
    }
    forall t | t in s.all ensures s.all[t].destroyCalls <= 1 { assert TaskSound(s, t); }
    forall t | t in s.all && s.all[t].worker in s.destroyed ensures s.all[t].phase == Closed { assert TaskSound(s, t); }
  }

  /** A document opened in any reachable state gets a worker no clear has retired. */
  lemma NewDocumentsGetALiveWorker(es: seq<Event>, w: WorkerId, t: TaskId)
    requires New(Run(INITIAL, es), Open(w, t))
    ensures var s := Step(Run(INITIAL, es), Open(w, t));
            t in s.all && s.all[t].worker !in s.retired && s.all[t].worker !in s.destroyed
  {
    InvInEveryRun(INITIAL, es);
  }

  /** Once its tasks have settled, a handler finishes and its worker is destroyed. */
  lemma SettledClearDestroysItsWorker(es: seq<Event>, c: ClearId, w: WorkerId)
    requires var s := Run(INITIAL, es); Retires(s, c, w) && AllClosed(s, s.clears[c].waiting)
    ensures Step(Run(INITIAL, es), Finish(c)).destroyed[w] == 1
  {
    InvInEveryRun(INITIAL, es);
    assert ClearSound(Run(INITIAL, es), c);
  }

  // ------------------------------------------------------------------- progress

  /** An open document closes once, however often it is told to, and leaves the worker alone. */
  ghost predicate ClosesOnce(s: Sys, t: TaskId)
    requires t in s.all
  {
    var closing := Step(s, Destroy(t));
    var closed := Step(closing, Settle(t));
    && closing == s.(all := s.all[t := Task(s.all[t].worker, Closing, 1)])
    && Step(closing, Destroy(t)) == closing
    && closed == s.(all := s.all[t := Task(s.all[t].worker, Closed, 1)], tasks := s.tasks - {t})
  }

  lemma DocumentCloses(es: seq<Event>, t: TaskId)
    ensures var s := Run(INITIAL, es); t in s.all && s.all[t].phase == Live ==> ClosesOnce(s, t)
  {
    var s := Run(INITIAL, es);
    assert Inv(s) by { InvInEveryRun(INITIAL, es); }
    if t in s.all && s.all[t].phase == Live { OpenCloses(s, t); }
  }

  lemma OpenCloses(s: Sys, t: TaskId)
    requires Inv(s) && t in s.all && s.all[t].phase == Live
    ensures ClosesOnce(s, t)
  {
    assert TaskSound(s, t);
    var all' := s.all[t := Task(s.all[t].worker, Closing, 1)];
    assert Step(s, Destroy(t)) == s.(all := all');
    assert all'[t := Task(s.all[t].worker, Closed, 1)] == s.all[t := Task(s.all[t].worker, Closed, 1)];
  }

  function Settles(ts: seq<TaskId>): seq<Event> {
    if ts == [] then [] else [Settle(ts[0])] + Settles(ts[1..])
  }

  /** The tasks `ts` have settled, each of which was closing. */
  lemma {:induction false} TheySettle(s: Sys, ts: seq<TaskId>)
    requires forall t :: t in s.tasks ==> t in s.all && s.all[t].phase == Closing && t in ts
    ensures var end := Run(s, Settles(ts));
            && end.tasks == {} && end.worker == s.worker && end.clears == s.clears && end.destroyed == s.destroyed
            && end.all.Keys == s.all.Keys
            && forall t :: t in s.all && (t in s.tasks || s.all[t].phase == Closed) ==>
                 end.all[t] == s.all[t].(phase := Closed)
    decreases |ts|
  {
    if ts != [] {
      var next := Step(s, Settle(ts[0]));
      assert Settles(ts)[1..] == Settles(ts[1..]);
      TheySettle(next, ts[1..]);
    }
  }

  /**
   A clear takes the shared worker away; when the documents that were open then have
   settled, in any order, all of them are closed and the worker is destroyed.
   */
  ghost predicate ClearEnds(s: Sys, c: ClearId, w: WorkerId, ts: seq<TaskId>) {
    var settled := Run(Step(s, Clear(c)), Settles(ts));
    var end := Step(settled, Finish(c));
    && settled.destroyed[w] == 0 && end.destroyed[w] == 1
    && end.worker.None? && end.tasks == {} && c !in end.clears && end.all.Keys == s.all.Keys
    && forall t :: t in s.all ==> end.all[t] == Task(s.all[t].worker, Closed, 1)
  }

  lemma ClearRunsToItsEnd(es: seq<Event>, c: ClearId, w: WorkerId, ts: seq<TaskId>)
    ensures var s := Run(INITIAL, es);
            c !in s.clears && s.worker == Some(w) && (forall t :: t in s.tasks ==> t in ts) ==> ClearEnds(s, c, w, ts)
  {
    var s := Run(INITIAL, es);
    assert Inv(s) by { InvInEveryRun(INITIAL, es); }
    if c !in s.clears && s.worker == Some(w) && forall t :: t in s.tasks ==> t in ts {
      ClearOfAll(s, c, w, ts);
    }
  }

  lemma ClearBegins(s: Sys, c: ClearId, w: WorkerId)
    requires Inv(s) && c !in s.clears && s.worker == Some(w)
    ensures var cleared := Step(s, Clear(c));
            && cleared.worker.None? && cleared.tasks == s.tasks && cleared.destroyed == s.destroyed
            && cleared.clears == s.clears[c := Clearing(Some(w), s.tasks)]
            && cleared.all.Keys == s.all.Keys && s.destroyed[w] == 0
            && forall t :: t in s.all ==>
                 cleared.all[t] == Task(s.all[t].worker, if t in s.tasks then Closing else Closed, 1)
  {
    forall t | t in s.all
      ensures BeginClosing(s.all[t]).destroyCalls == 1 && (t in s.tasks || s.all[t].phase == Closed)
    {
      assert TaskSound(s, t);
    }
  }

  lemma ClearOfAll(s: Sys, c: ClearId, w: WorkerId, ts: seq<TaskId>)
    requires Inv(s) && c !in s.clears && s.worker == Some(w) && forall t :: t in s.tasks ==> t in ts
    ensures ClearEnds(s, c, w, ts)
  {
    ClearBegins(s, c, w);
    TheySettle(Step(s, Clear(c)), ts);
    ClearFinishes(s.all, s.tasks, Run(Step(s, Clear(c)), Settles(ts)), c, w);
  }

  lemma ClearFinishes(before: map<TaskId, Task>, waiting: set<TaskId>, settled: Sys, c: ClearId, w: WorkerId)
    requires c in settled.clears && settled.clears[c] == Clearing(Some(w), waiting) && settled.destroyed[w] == 0
    requires settled.all.Keys == before.Keys && forall t :: t in waiting ==> t in before
    requires forall t :: t in before ==> settled.all[t] == Task(before[t].worker, Closed, 1)
    ensures var end := Step(settled, Finish(c));
            && end.destroyed[w] == 1 && c !in end.clears && end.all == settled.all
            && end.worker == settled.worker && end.tasks == settled.tasks
  {
  }
}
