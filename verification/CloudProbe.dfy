/**
 The one-task cloud submission probe (scripts/verify_mineru_cloud.py): durable state
 is written before each external effect, and a run may fail or be killed anywhere.

 `state.json` is replaced atomically, so an interrupted save leaves the old or the
 new state. The lock file lets one process run at a time.
 */
module CloudProbe {
  import opened Common

  type Batch = nat

  datatype CloudStatus = Unverified | CreationAttempted | UploadAttempted | Uploaded | Passed

  /** The fields of `state.json` that the submission protocol reads or writes. */
  datatype Saved = Saved(runId: nat, attempts: nat, batch: Option<Batch>, cloud: CloudStatus,
                         preflight: bool, archive: bool, error: Option<string>)

  /** A call to the cloud service, with the state that was on disk when it was made. */
  datatype Effect =
    | Create(durable: Option<Saved>, reply: Option<Batch>)
    | Upload(durable: Option<Saved>, accepted: bool)
    | Poll(durable: Option<Saved>, batch: Batch, done: bool)

  /** Where the process is: the next call or save it makes, or not running. */
  datatype Pc =
    | Stopped | Preflight | SavePreflight | CloudPreflight | SaveAttempt | CallCreate | SaveBatch
    | CallUpload | SaveUploaded | Polling | SavePassed | Download | SaveArchive | SaveError

  /** `mem` is `self.state`; it is lost when the process stops. */
  datatype World = World(disk: Option<Saved>, log: seq<Effect>, mem: Saved, pc: Pc, resume: bool)

  /**
   What the environment answers to the pending call or save. A failing or killed save
   may already have replaced the file (`wrote`).
   */
  datatype Answer =
    | Fine | Got(batch: Batch) | Pending | Done | Expired
    | Raises(code: string, wrote: bool)
    | Killed(wrote: bool)

  function Fresh(runId: nat): Saved {
    Saved(runId, 0, None, Unverified, false, false, None)
  }

  /** A new process: it reads the saved state, or makes one. */
  function Begin(w: World, resume: bool, runId: nat): World {
    if w.pc != Stopped then w
    else World(w.disk, w.log, if w.disk.Some? then w.disk.value else Fresh(runId), Preflight, resume)
  }

  /** The error path of `main`: the code goes into the state, which is saved once more. */
  function Failing(w: World, code: string): World {
    w.(mem := w.mem.(error := Some(code)), pc := SaveError)
  }

  /** A save with its outcome; `next` is where the process goes when it returns. */
  function Save(w: World, a: Answer, next: Pc): World {
    match a
    case Killed(wrote) => w.(disk := if wrote then Some(w.mem) else w.disk, pc := Stopped)
    case Raises(code, wrote) => Failing(w.(disk := if wrote then Some(w.mem) else w.disk), code)
    case _ => w.(disk := Some(w.mem), pc := next)
  }

  /** A failing or killed call. */
  function Interrupted(w: World, a: Answer): World {
    match a
    case Killed(_) => w.(pc := Stopped)
    case Raises(code, _) => Failing(w, code)
    case _ => Failing(w, "probe_failed")
  }

  /** The branch of `cloud_run` after its preflight. */
  function Branch(w: World): World {
    if w.resume then
      if w.mem.batch.None? then Failing(w, "no_batch_do_not_resubmit") else w.(pc := Polling)
    else
      if w.mem.attempts != 0 then Failing(w, "already_attempted_use_resume") else w.(pc := CloudPreflight)
  }

  function Logged(w: World, e: Effect): World {
    w.(log := w.log + [e])
  }

  /** One answer of the environment, and the code up to the next call or save. */
  function Next(w: World, a: Answer): World {
    match w.pc
    case Stopped => w
    case Preflight =>
      if a.Fine? then w.(mem := w.mem.(preflight := true), pc := SavePreflight) else Interrupted(w, a)
    case SavePreflight =>
      if a.Killed? || a.Raises? then Save(w, a, Preflight) else Branch(Save(w, a, Preflight))
    case CloudPreflight =>
      if a.Fine? then w.(mem := w.mem.(attempts := 1, cloud := CreationAttempted), pc := SaveAttempt)
      else Interrupted(w, a)
    case SaveAttempt => Save(w, a, CallCreate)
    case CallCreate =>
      if a.Got? then
        Logged(w, Create(w.disk, Some(a.batch)))
        .(mem := w.mem.(batch := Some(a.batch), cloud := UploadAttempted), pc := SaveBatch)
      else Interrupted(Logged(w, Create(w.disk, None)), a)
    case SaveBatch => Save(w, a, CallUpload)
    case CallUpload =>
      if a.Fine? then Logged(w, Upload(w.disk, true)).(mem := w.mem.(cloud := Uploaded), pc := SaveUploaded)
      else Interrupted(Logged(w, Upload(w.disk, false)), a)
    case SaveUploaded => Save(w, a, Polling)
    case Polling =>
      if a.Expired? then Failing(w, "poll_timeout_remote_state_unknown")
      else if w.mem.batch.None? then Failing(w, "probe_failed")
      else
        var asked := Logged(w, Poll(w.disk, w.mem.batch.value, a.Done?));
        if a.Done? then asked.(mem := w.mem.(cloud := Passed), pc := SavePassed)
        else if a.Pending? then asked
        else Interrupted(asked, a)
    case SavePassed => Save(w, a, Download)
    case Download => if a.Fine? then w.(mem := w.mem.(archive := true), pc := SaveArchive) else Interrupted(w, a)
    case SaveArchive => Save(w, a, Stopped)
    case SaveError =>
      (match a
       case Killed(wrote) => Save(w, a, Stopped)
       case Raises(_, wrote) => w.(disk := if wrote then Some(w.mem) else w.disk, pc := Stopped)
       case _ => Save(w, a, Stopped))
  }

  /** A process killed between two calls keeps what is on disk. */
  function Exec(w: World, script: seq<Answer>): World
    decreases |script|
  {
    if script == [] then w.(pc := Stopped) else Exec(Next(w, script[0]), script[1..])
  }

  /** One process: fresh or resuming, and the answers it gets until it ends or is killed. */
  datatype Process = Process(resume: bool, runId: nat, script: seq<Answer>)

  function RunAll(w: World, ps: seq<Process>): World
    decreases |ps|
  {
    if ps == [] then w else RunAll(Exec(Begin(w, ps[0].resume, ps[0].runId), ps[0].script), ps[1..])
  }

  const INITIAL := World(None, [], Fresh(0), Stopped, false)

  // -------------------------------------------------------------------- the code

  /**
   `Probe` with its state file and the calls it made. `CloudRun` follows the source
   statement by statement; `script` holds the answers and its end kills the process.
   */
  class Probe {
    var disk: Option<Saved>
    var log: seq<Effect>
    var mem: Saved

    ghost function View(pc: Pc, resume: bool): World reads this {
      World(disk, log, mem, pc, resume)
    }

    constructor (disk: Option<Saved>, log: seq<Effect>, runId: nat)
      ensures this.disk == disk && this.log == log
      ensures mem == if disk.Some? then disk.value else Fresh(runId)
    {
      this.disk, this.log, mem := disk, log, if disk.Some? then disk.value else Fresh(runId);
    }

    /** `save`: false when it raised or the process was killed. */
    method Store(a: Answer) returns (ok: bool)
      modifies this`disk
      ensures ok == (!a.Raises? && !a.Killed?)
      ensures disk == if ok || a.wrote then Some(mem) else old(disk)
    {
      ok := !a.Raises? && !a.Killed?;
      if ok || a.wrote {
        disk := Some(mem);
      }
    }

    /** The error path of `main`. */
    method Fail(code: string, script: seq<Answer>, resume: bool)
      modifies this
      ensures View(Stopped, resume) == Exec(Failing(old(View(Stopped, resume)), code), script)
    {
      mem := mem.(error := Some(code));
      if script == [] { return; }
      var _ := Store(script[0]);
      StoppedStays(View(Stopped, resume), script[1..]);
    }

    /** What every failing or killed call comes to; `a` is the answer that interrupted the run. */
    method Abort(a: Answer, script: seq<Answer>, resume: bool)
      modifies this
      ensures View(Stopped, resume) == Exec(Interrupted(old(View(Stopped, resume)), a), script)
    {
      match a
      case Killed(_) => StoppedStays(View(Stopped, resume), script);
      case Raises(code, _) => Fail(code, script, resume);
      case _ => Fail("probe_failed", script, resume);
    }

    /** A save on the way; when it does not return, the run ends in `Abort`. */
    method StoreOrAbort(script: seq<Answer>, resume: bool, ghost next: Pc) returns (ok: bool)
      modifies this
      ensures ok == (script != [] && !script[0].Raises? && !script[0].Killed?)
      ensures ok ==> View(next, resume) == Save(old(View(Stopped, resume)), script[0], next)
      ensures !ok && script == [] ==> View(Stopped, resume) == old(View(Stopped, resume))
      ensures !ok && script != [] ==>
                View(Stopped, resume) == Exec(Save(old(View(Stopped, resume)), script[0], next), script[1..])
    {
      if script == [] { return false; }
      ok := Store(script[0]);
      if !ok { Abort(script[0], script[1..], resume); }
    }

    method CloudRun(resume: bool, script: seq<Answer>)
      modifies this
      ensures View(Stopped, resume) == Exec(old(View(Preflight, resume)), script)
    {
      if script == [] { return; }
      if !script[0].Fine? { Abort(script[0], script[1..], resume); return; }
      ghost var total := Exec(View(Preflight, resume), script);
      mem := mem.(preflight := true);
      var rest := script[1..];
      assert Exec(View(SavePreflight, resume), rest) == total;
      var ok := StoreOrAbort(rest, resume, Preflight);
      if !ok { return; }
      rest := rest[1..];
      assert Exec(Branch(View(Preflight, resume)), rest) == total;
      if resume {
        if mem.batch.None? { Fail("no_batch_do_not_resubmit", rest, resume); return; }
        PollForResult(rest, resume);
      } else {
        if mem.attempts != 0 { Fail("already_attempted_use_resume", rest, resume); return; }
        Submit(rest, resume);
      }
    }

    /** The submitting branch: intent saved, create, batch saved, upload, outcome saved. */
    method Submit(script: seq<Answer>, resume: bool)
      modifies this
      ensures View(Stopped, resume) == Exec(old(View(CloudPreflight, resume)), script)
    {
      if script == [] { return; }
      if !script[0].Fine? { Abort(script[0], script[1..], resume); return; }
      ghost var total := Exec(View(CloudPreflight, resume), script);
      mem := mem.(attempts := 1, cloud := CreationAttempted);
      var rest := script[1..];
      assert Exec(View(SaveAttempt, resume), rest) == total;
      var ok := StoreOrAbort(rest, resume, CallCreate);
      if !ok { return; }
      rest := rest[1..];
      assert Exec(View(CallCreate, resume), rest) == total;
      if rest == [] { return; }
      log := log + [Create(disk, if rest[0].Got? then Some(rest[0].batch) else None)];
      if !rest[0].Got? { Abort(rest[0], rest[1..], resume); return; }
      mem := mem.(batch := Some(rest[0].batch), cloud := UploadAttempted);
      SendFile(rest[1..], resume);
    }

    method SendFile(script: seq<Answer>, resume: bool)
      modifies this
      ensures View(Stopped, resume) == Exec(old(View(SaveBatch, resume)), script)
    {
      ghost var total := Exec(View(SaveBatch, resume), script);
      var rest := script;
      var ok := StoreOrAbort(rest, resume, CallUpload);
      if !ok { return; }
      rest := rest[1..];
      assert Exec(View(CallUpload, resume), rest) == total;
      if rest == [] { return; }
      log := log + [Upload(disk, rest[0].Fine?)];
      if !rest[0].Fine? { Abort(rest[0], rest[1..], resume); return; }
      mem := mem.(cloud := Uploaded);
      rest := rest[1..];
      assert Exec(View(SaveUploaded, resume), rest) == total;
      ok := StoreOrAbort(rest, resume, Polling);
      if !ok { return; }
      PollForResult(rest[1..], resume);
    }

    /** The polling loop up to its deadline, then the download. */
    method PollForResult(script: seq<Answer>, resume: bool)
      modifies this
      ensures View(Stopped, resume) == Exec(old(View(Polling, resume)), script)
    {
      var rest := script;
      while rest != []
        invariant Exec(View(Polling, resume), rest) == Exec(old(View(Polling, resume)), script)
        decreases |rest|
      {
        var a := rest[0];
        rest := rest[1..];
        if a.Expired? { Fail("poll_timeout_remote_state_unknown", rest, resume); return; }
        if mem.batch.None? { Fail("probe_failed", rest, resume); return; }
        log := log + [Poll(disk, mem.batch.value, a.Done?)];
        if a.Done? {
          mem := mem.(cloud := Passed);
          FetchArchive(rest, resume);
          return;
        }
        if !a.Pending? { Abort(a, rest, resume); return; }
      }
    }

    method FetchArchive(script: seq<Answer>, resume: bool)
      modifies this
      ensures View(Stopped, resume) == Exec(old(View(SavePassed, resume)), script)
    {
      ghost var total := Exec(View(SavePassed, resume), script);
      var rest := script;
      var ok := StoreOrAbort(rest, resume, Download);
      if !ok { return; }
      rest := rest[1..];
      assert Exec(View(Download, resume), rest) == total;
      if rest == [] { return; }
      if !rest[0].Fine? { Abort(rest[0], rest[1..], resume); return; }
      mem := mem.(archive := true);
      rest := rest[1..];
      assert Exec(View(SaveArchive, resume), rest) == total;
      ok := StoreOrAbort(rest, resume, Stopped);
      if ok { StoppedStays(View(Stopped, resume), rest[1..]); }
    }
  }

  lemma {:induction false} StoppedStays(w: World, script: seq<Answer>)
    requires w.pc == Stopped
    ensures Exec(w, script) == w
    decreases |script|
  {
    if script != [] { StoppedStays(w, script[1..]); }
  }

  // ----------------------------------------------------------------- at most once

  function Creates(log: seq<Effect>): nat {
    if log == [] then 0 else Creates(log[..|log| - 1]) + if log[|log| - 1].Create? then 1 else 0
  }

  function Uploads(log: seq<Effect>): nat {
    if log == [] then 0 else Uploads(log[..|log| - 1]) + if log[|log| - 1].Upload? then 1 else 0
  }

  lemma LogGrows(log: seq<Effect>, e: Effect)
    ensures Creates(log + [e]) == Creates(log) + if e.Create? then 1 else 0
    ensures Uploads(log + [e]) == Uploads(log) + if e.Upload? then 1 else 0
  {
    assert (log + [e])[..|log|] == log;
  }

  /** Call `e`, made after the calls in `log`, found what it needs already on disk. */
  ghost predicate EffectSound(log: seq<Effect>, e: Effect) {
    match e
    case Create(d, _) => d.Some? && d.value.attempts == 1 && d.value.batch.None?
    case Upload(d, _) => d.Some? && d.value.batch.Some? && Created(log, d.value.batch.value)
    case Poll(d, b, _) => d.Some? && d.value.batch == Some(b) && Created(log, b)
  }

  /** The service answered the one creation with this batch. */
  ghost predicate Created(log: seq<Effect>, b: Batch) {
    exists k :: 0 <= k < |log| && log[k].Create? && log[k].reply == Some(b)
  }

  ghost predicate UploadAccepted(log: seq<Effect>) {
    exists k :: 0 <= k < |log| && log[k].Upload? && log[k].accepted
  }

  ghost predicate PollDone(log: seq<Effect>) {
    exists k :: 0 <= k < |log| && log[k].Poll? && log[k].done
  }

  /** A state, on disk or in memory, claims no more than the calls justify. */
  ghost predicate Honest(log: seq<Effect>, s: Saved) {
    && s.attempts <= 1
    && (s.batch.Some? ==> s.attempts == 1 && Created(log, s.batch.value))
    && (s.cloud == Uploaded ==> UploadAccepted(log))
    && (s.cloud == Passed ==> PollDone(log))
  }

  ghost predicate Attempted(o: Option<Saved>) {
    o.Some? && o.value.attempts == 1
  }

  ghost predicate HasBatch(o: Option<Saved>) {
    o.Some? && o.value.batch.Some?
  }

  /** What holds of disk and calls whenever no process runs. */
  ghost predicate Durable(disk: Option<Saved>, log: seq<Effect>) {
    && Creates(log) <= 1 && Uploads(log) <= 1
    && (Creates(log) == 1 ==> Attempted(disk))
    && (Uploads(log) == 1 ==> HasBatch(disk))
    && Uploads(log) <= Creates(log)
    && (disk.Some? ==> Honest(log, disk.value))
    && forall k :: 0 <= k < |log| ==> EffectSound(log[..k], log[k])
  }

  /** Memory never falls behind the disk. */
  ghost predicate Ahead(disk: Option<Saved>, mem: Saved) {
    disk.Some? ==>
      && disk.value.attempts <= mem.attempts
      && (disk.value.batch.Some? ==> mem.batch == disk.value.batch)
  }

  /** What the process may rely on at its next call or save. */
  ghost predicate AtPc(w: World) {
    match w.pc
    case CloudPreflight => !w.resume && w.mem.attempts == 0
    case SaveAttempt => !w.resume && w.mem.attempts == 1 && w.mem.batch.None? && Creates(w.log) == 0
    case CallCreate =>
      !w.resume && w.disk == Some(w.mem) && w.mem.attempts == 1 && w.mem.batch.None? && Creates(w.log) == 0
    case SaveBatch =>
      !w.resume && w.mem.attempts == 1 && w.mem.batch.Some? && Creates(w.log) == 1 && Uploads(w.log) == 0
    case CallUpload =>
      !w.resume && w.disk == Some(w.mem) && w.mem.batch.Some? && Creates(w.log) == 1 && Uploads(w.log) == 0
    case SaveUploaded => !w.resume && w.mem.batch.Some?
    case Polling => w.disk.Some? && w.mem.batch.Some? && w.disk.value.batch == w.mem.batch
    case _ => true
  }

  ghost predicate Sound(disk: Option<Saved>, log: seq<Effect>, mem: Saved) {
    Durable(disk, log) && Honest(log, mem) && Ahead(disk, mem)
  }

  ghost predicate Inv(w: World) {
    Durable(w.disk, w.log) && (w.pc != Stopped ==> Sound(w.disk, w.log, w.mem) && AtPc(w))
  }

  lemma HonestGrows(log: seq<Effect>, e: Effect, s: Saved)
    requires Honest(log, s)
    ensures Honest(log + [e], s)
  {
    forall k | 0 <= k < |log| ensures (log + [e])[k] == log[k] {
    }
    if s.batch.Some? {
      var k :| 0 <= k < |log| && log[k].Create? && log[k].reply == Some(s.batch.value);
      assert (log + [e])[k] == log[k];
    }
    if s.cloud == Uploaded {
      var k :| 0 <= k < |log| && log[k].Upload? && log[k].accepted;
      assert (log + [e])[k] == log[k];
    }
    if s.cloud == Passed {
      var k :| 0 <= k < |log| && log[k].Poll? && log[k].done;
      assert (log + [e])[k] == log[k];
    }
  }

  /** Logging a sound call keeps the disk part of the invariant. */
  lemma DurableGrows(disk: Option<Saved>, log: seq<Effect>, e: Effect)
    requires Durable(disk, log) && EffectSound(log, e)
    requires e.Create? ==> Creates(log) == 0 && Attempted(disk)
    requires e.Upload? ==> Creates(log) == 1 && Uploads(log) == 0 && HasBatch(disk)
    ensures Durable(disk, log + [e])
  {
    LogGrows(log, e);
    if disk.Some? { HonestGrows(log, e, disk.value); }
    forall k | 0 <= k < |log + [e]| ensures EffectSound((log + [e])[..k], (log + [e])[k]) {
      assert (log + [e])[..k] == if k < |log| then log[..k] else log;
    }
  }

  /** Memory can replace the file at any time. */
  lemma MemoryIsDurable(disk: Option<Saved>, log: seq<Effect>, mem: Saved)
    requires Sound(disk, log, mem)
    ensures Sound(Some(mem), log, mem)
  {
  }

  /** In the error path nothing is asked of the place. */
  lemma FailingKeepsInv(w: World, code: string)
    requires Sound(w.disk, w.log, w.mem)
    ensures Inv(Failing(w, code))
  {
  }

  lemma InterruptedKeepsInv(w: World, a: Answer)
    requires Sound(w.disk, w.log, w.mem)
    ensures Inv(Interrupted(w, a))
  {
    match a
    case Killed(_) =>
    case Raises(code, _) => FailingKeepsInv(w, code);
    case _ => FailingKeepsInv(w, "probe_failed");
  }

  /** Where a save that returns may lead. */
  ghost predicate Follows(pc: Pc, next: Pc) {
    && next !in {CloudPreflight, SaveAttempt, SaveBatch, SaveUploaded}
    && (next == CallCreate ==> pc == SaveAttempt)
    && (next == CallUpload ==> pc == SaveBatch)
    && (next == Polling ==> pc == SaveUploaded)
  }

  lemma KilledSaveKeepsInv(w: World, a: Answer, next: Pc)
    requires Sound(w.disk, w.log, w.mem) && a.Killed?
    ensures Inv(Save(w, a, next))
  {
    MemoryIsDurable(w.disk, w.log, w.mem);
  }

  lemma FailedSaveKeepsInv(w: World, a: Answer, next: Pc)
    requires Sound(w.disk, w.log, w.mem) && a.Raises?
    ensures Inv(Save(w, a, next))
  {
    MemoryIsDurable(w.disk, w.log, w.mem);
  }

  lemma FinishedSaveKeepsInv(w: World, a: Answer, next: Pc)
    requires Inv(w) && w.pc != Stopped && Follows(w.pc, next) && !a.Killed? && !a.Raises?
    ensures Inv(Save(w, a, next))
  {
    MemoryIsDurable(w.disk, w.log, w.mem);
  }

  /** Any save, complete or interrupted, keeps the invariant. */
  lemma SaveKeepsInv(w: World, a: Answer, next: Pc)
    requires Inv(w) && w.pc != Stopped && Follows(w.pc, next)
    ensures Inv(Save(w, a, next))
  {
    match a
    case Killed(_) => KilledSaveKeepsInv(w, a, next);
    case Raises(_, _) => FailedSaveKeepsInv(w, a, next);
    case _ => FinishedSaveKeepsInv(w, a, next);
  }

  lemma CreateKeepsDurable(w: World, batch: Option<Batch>)
    requires Inv(w) && w.pc == CallCreate
    ensures var log := w.log + [Create(w.disk, batch)];
            && Durable(w.disk, log) && Honest(log, w.mem) && Creates(log) == 1 && Uploads(log) == 0
            && (batch.Some? ==> Created(log, batch.value))
  {
    var e := Create(w.disk, batch);
    DurableGrows(w.disk, w.log, e);
    HonestGrows(w.log, e, w.mem);
    LogGrows(w.log, e);
    assert (w.log + [e])[|w.log|] == e;
  }

  lemma CreatedKeepsInv(w: World, a: Answer)
    requires Inv(w) && w.pc == CallCreate && a.Got?
    ensures Inv(Next(w, a))
  {
    CreateKeepsDurable(w, Some(a.batch));
  }

  lemma NotCreatedKeepsInv(w: World, a: Answer)
    requires Inv(w) && w.pc == CallCreate && !a.Got?
    ensures Inv(Next(w, a))
  {
    CreateKeepsDurable(w, None);
    InterruptedKeepsInv(Logged(w, Create(w.disk, None)), a);
  }

  lemma CreateKeepsInv(w: World, a: Answer)
    requires Inv(w) && w.pc == CallCreate
    ensures Inv(Next(w, a))
  {
    if a.Got? { CreatedKeepsInv(w, a); } else { NotCreatedKeepsInv(w, a); }
  }

  lemma UploadKeepsInv(w: World, a: Answer)
    requires Inv(w) && w.pc == CallUpload
    ensures Inv(Next(w, a))
  {
    UploadKeepsDurable(w, a.Fine?);
    if !a.Fine? { InterruptedKeepsInv(Logged(w, Upload(w.disk, false)), a); }
  }

  lemma UploadKeepsDurable(w: World, accepted: bool)
    requires Inv(w) && w.pc == CallUpload
    ensures var log := w.log + [Upload(w.disk, accepted)];
            Durable(w.disk, log) && Honest(log, w.mem) && (accepted ==> UploadAccepted(log))
  {
    var e := Upload(w.disk, accepted);
    DurableGrows(w.disk, w.log, e);
    HonestGrows(w.log, e, w.mem);
    assert (w.log + [e])[|w.log|] == e;
  }

  lemma PollKeepsInv(w: World, a: Answer)
    requires Inv(w) && w.pc == Polling
    ensures Inv(Next(w, a))
  {
    if !a.Expired? {
      PollKeepsDurable(w, a.Done?);
      if !a.Done? && !a.Pending? {
        InterruptedKeepsInv(Logged(w, Poll(w.disk, w.mem.batch.value, false)), a);
      }
    }
  }

  lemma PollKeepsDurable(w: World, done: bool)
    requires Inv(w) && w.pc == Polling
    ensures var log := w.log + [Poll(w.disk, w.mem.batch.value, done)];
            Durable(w.disk, log) && Honest(log, w.mem) && (done ==> PollDone(log))
  {
    var e := Poll(w.disk, w.mem.batch.value, done);
    DurableGrows(w.disk, w.log, e);
    HonestGrows(w.log, e, w.mem);
    assert (w.log + [e])[|w.log|] == e;
  }

  /** The save of the error path ends the process in any case. */
  lemma LastSaveKeepsInv(w: World, a: Answer)
    requires Inv(w) && w.pc == SaveError
    ensures Inv(Next(w, a))
  {
    MemoryIsDurable(w.disk, w.log, w.mem);
  }

  lemma BranchKeepsInv(w: World, a: Answer)
    requires Inv(w) && w.pc == SavePreflight
    ensures Inv(Next(w, a))
  {
    SaveKeepsInv(w, a, Preflight);
  }

  lemma PlainCallKeepsInv(w: World, a: Answer)
    requires Inv(w) && w.pc in {Preflight, CloudPreflight, Download}
    ensures Inv(Next(w, a))
  {
    if !a.Fine? {
      InterruptedKeepsInv(w, a);
      assert Next(w, a) == Interrupted(w, a);
    }
  }

  lemma NextKeepsInv(w: World, a: Answer)
    requires Inv(w)
    ensures Inv(Next(w, a))
  {
    match w.pc
    case Stopped =>
    case CallCreate => CreateKeepsInv(w, a);
    case CallUpload => UploadKeepsInv(w, a);
    case Polling => PollKeepsInv(w, a);
    case SavePreflight => BranchKeepsInv(w, a);
    case SaveAttempt => SaveKeepsInv(w, a, CallCreate);
    case SaveBatch => SaveKeepsInv(w, a, CallUpload);
    case SaveUploaded => SaveKeepsInv(w, a, Polling);
    case SavePassed => SaveKeepsInv(w, a, Download);
    case SaveArchive => SaveKeepsInv(w, a, Stopped);
    case SaveError => LastSaveKeepsInv(w, a);
    case _ => PlainCallKeepsInv(w, a);
  }

  lemma {:induction false} ExecKeepsDurable(w: World, script: seq<Answer>)
    requires Inv(w)
    ensures Inv(Exec(w, script))
    decreases |script|
  {
    if script != [] {
      NextKeepsInv(w, script[0]);
      ExecKeepsDurable(Next(w, script[0]), script[1..]);
    }
  }

  /**
   Over any sequence of fresh runs and resumes on one evidence directory, each failing
   or killed anywhere: `create` and `upload` are called at most once, the upload only
   with the batch id on disk, every poll asks for the batch that is on disk and was
   created, and the saved status never claims more than happened.
   */
  lemma {:induction false} AtMostOnce(w: World, ps: seq<Process>)
    requires w.pc == Stopped && Inv(w)
    ensures RunAll(w, ps).pc == Stopped && Inv(RunAll(w, ps))
    decreases |ps|
  {
    if ps != [] {
      var started := Begin(w, ps[0].resume, ps[0].runId);
      ExecKeepsDurable(started, ps[0].script);
      ExecStops(started, ps[0].script);
      AtMostOnce(Exec(started, ps[0].script), ps[1..]);
    }
  }

  lemma {:induction false} ExecStops(w: World, script: seq<Answer>)
    ensures Exec(w, script).pc == Stopped
    decreases |script|
  {
    if script != [] { ExecStops(Next(w, script[0]), script[1..]); }
  }

  lemma AtMostOnceFromTheStart(ps: seq<Process>)
    ensures Durable(RunAll(INITIAL, ps).disk, RunAll(INITIAL, ps).log)
  {
    AtMostOnce(INITIAL, ps);
  }

  // ------------------------------------------------------------------------ resume

  /** `later` adds only polls of `batch` to `log`. */
  ghost predicate OnlyPolls(log: seq<Effect>, later: seq<Effect>, batch: Option<Batch>) {
    && log <= later
    && forall k :: |log| <= k < |later| ==> later[k].Poll? && batch == Some(later[k].batch)
  }

  /** What stays true of a resuming process that began with `log` and `batch`. */
  ghost predicate Resuming(w: World, log: seq<Effect>, batch: Option<Batch>) {
    && w.resume && OnlyPolls(log, w.log, batch)
    && (w.pc != Stopped ==> w.mem.batch == batch)
    && w.pc in {Stopped, Preflight, SavePreflight, Polling, SavePassed, Download, SaveArchive, SaveError}
  }

  lemma ResumePolls(w: World, a: Answer, log: seq<Effect>, batch: Option<Batch>)
    requires Resuming(w, log, batch) && w.pc == Polling
    ensures Resuming(Next(w, a), log, batch)
  {
    if !a.Expired? && batch.Some? {
      assert OnlyPolls(log, w.log + [Poll(w.disk, batch.value, a.Done?)], batch);
    }
  }

  lemma ResumeCallsNothing(w: World, a: Answer, log: seq<Effect>, batch: Option<Batch>)
    requires Resuming(w, log, batch) && w.pc != Polling
    ensures Resuming(Next(w, a), log, batch)
  {
    assert Next(w, a).log == w.log;
  }

  lemma ResumeStepPolls(w: World, a: Answer, log: seq<Effect>, batch: Option<Batch>)
    requires Resuming(w, log, batch)
    ensures Resuming(Next(w, a), log, batch)
  {
    if w.pc == Polling { ResumePolls(w, a, log, batch); } else { ResumeCallsNothing(w, a, log, batch); }
  }

  lemma {:induction false} ResumeStepsPoll(w: World, script: seq<Answer>, log: seq<Effect>, batch: Option<Batch>)
    requires Resuming(w, log, batch)
    ensures OnlyPolls(log, Exec(w, script).log, batch)
    decreases |script|
  {
    if script != [] {
      ResumeStepPolls(w, script[0], log, batch);
      ResumeStepsPoll(Next(w, script[0]), script[1..], log, batch);
    }
  }

  /** A resume never creates or uploads; it polls exactly the batch that was on disk when it began. */
  lemma ResumeOnlyPolls(w: World, runId: nat, script: seq<Answer>)
    requires Inv(w) && w.pc == Stopped
    ensures OnlyPolls(w.log, Exec(Begin(w, true, runId), script).log,
                      if w.disk.Some? then w.disk.value.batch else None)
  {
    ResumeStepsPoll(Begin(w, true, runId), script, w.log, if w.disk.Some? then w.disk.value.batch else None);
  }

  /** A step leaves the file as it was or replaces it by the state in memory. */
  lemma DiskStep(w: World, a: Answer)
    ensures Next(w, a).disk == w.disk || (w.pc != Stopped && Next(w, a).disk == Some(w.mem))
  {
  }

  lemma BatchIsFixedByStep(w: World, a: Answer)
    requires Inv(w) && HasBatch(w.disk)
    ensures HasBatch(Next(w, a).disk) && Next(w, a).disk.value.batch == w.disk.value.batch
  {
    DiskStep(w, a);
  }

  /** The saved batch never changes once it is on disk. */
  lemma {:induction false} BatchIsFixed(w: World, script: seq<Answer>)
    requires Inv(w) && HasBatch(w.disk)
    ensures HasBatch(Exec(w, script).disk) && Exec(w, script).disk.value.batch == w.disk.value.batch
    decreases |script|
  {
    if script != [] {
      NextKeepsInv(w, script[0]);
      BatchIsFixedByStep(w, script[0]);
      BatchIsFixed(Next(w, script[0]), script[1..]);
    }
  }

  /** A fresh run after any attempt ends without a single call to the service. */
  lemma {:induction false} SecondFreshRunIsRefused(w: World, runId: nat, script: seq<Answer>)
    requires Inv(w) && w.pc == Stopped && Attempted(w.disk)
    ensures Exec(Begin(w, false, runId), script).log == w.log
  {
    RefusedStepsStaySilent(Begin(w, false, runId), script);
  }

  lemma {:induction false} RefusedStepsStaySilent(w: World, script: seq<Answer>)
    requires !w.resume && w.pc in {Stopped, Preflight, SavePreflight, SaveError}
    requires w.pc != Stopped ==> w.mem.attempts != 0
    ensures Exec(w, script).log == w.log
    decreases |script|
  {
    if script != [] { RefusedStepsStaySilent(Next(w, script[0]), script[1..]); }
  }
}
