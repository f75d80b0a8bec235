/**
 What a process of the cloud probe does, call by call: the order of its calls, and where it
 gets when every answer is good.
 */
module CloudProbeRuns {
  import opened Common
  import opened CloudProbe

  // -------------------------------------------------------------- the order of calls

  /** The calls of a fresh process are a beginning of: create, upload, poll, poll, and so on. */
  predicate InOrder(calls: seq<Effect>) {
    && (|calls| > 0 ==> calls[0].Create?)
    && (|calls| > 1 ==> calls[0].reply.Some? && calls[1].Upload?)
    && (|calls| > 2 ==> calls[1].accepted)
    && forall k :: 2 <= k < |calls| ==> calls[k].Poll? && calls[0].reply == Some(calls[k].batch)
  }

  /** Where a fresh process stands after `calls`. */
  predicate Stage(w: World, calls: seq<Effect>) {
    && !w.resume && InOrder(calls)
    && match w.pc
       case SaveBatch => |calls| == 1 && w.mem.batch.Some? && calls[0].reply == w.mem.batch
       case CallUpload => |calls| == 1 && w.mem.batch.Some? && calls[0].reply == w.mem.batch
       case SaveUploaded => |calls| == 2 && calls[1].accepted && calls[0].reply == w.mem.batch
       case Polling => |calls| >= 2 && calls[1].accepted && calls[0].reply == w.mem.batch
       case SavePassed => |calls| > 2 && calls[|calls| - 1].done
       case Download => |calls| > 2 && calls[|calls| - 1].done
       case SaveArchive => |calls| > 2 && calls[|calls| - 1].done
       case SaveError => true
       case Stopped => true
       case _ => calls == []
  }

  /** The call a step makes, if it makes one. */
  function Called(w: World, a: Answer): seq<Effect> {
    match w.pc
    case CallCreate => [Create(w.disk, if a.Got? then Some(a.batch) else None)]
    case CallUpload => [Upload(w.disk, a.Fine?)]
    case Polling =>
      if a.Expired? || w.mem.batch.None? then [] else [Poll(w.disk, w.mem.batch.value, a.Done?)]
    case _ => []
  }

  lemma LogAfter(w: World, a: Answer)
    ensures Next(w, a).log == w.log + Called(w, a)
  {
  }

  lemma StageCreates(w: World, a: Answer)
    requires Stage(w, []) && w.pc == CallCreate
    ensures Stage(Next(w, a), Called(w, a))
  {
  }

  lemma StageUploads(w: World, a: Answer, calls: seq<Effect>)
    requires Stage(w, calls) && w.pc == CallUpload
    ensures Stage(Next(w, a), calls + Called(w, a))
  {
  }

  lemma StagePolls(w: World, a: Answer, calls: seq<Effect>)
    requires Stage(w, calls) && w.pc == Polling
    ensures Stage(Next(w, a), calls + Called(w, a))
  {
    assert a.Expired? ==> calls + Called(w, a) == calls;
  }

  lemma StageSaves(w: World, a: Answer, calls: seq<Effect>)
    requires Stage(w, calls) && w.pc in {SaveBatch, SaveUploaded, SavePassed, SaveArchive, SaveError}
    ensures Stage(Next(w, a), calls)
  {
  }

  lemma StageElse(w: World, a: Answer, calls: seq<Effect>)
    requires Stage(w, calls) && w.pc in {Preflight, SavePreflight, CloudPreflight, SaveAttempt, Download, Stopped}
    ensures Stage(Next(w, a), calls)
  {
  }

  lemma StageNext(w: World, a: Answer, calls: seq<Effect>)
    requires Stage(w, calls)
    ensures Stage(Next(w, a), calls + Called(w, a))
  {
    match w.pc
    case CallCreate => StageCreates(w, a); assert [] + Called(w, a) == Called(w, a);
    case CallUpload => StageUploads(w, a, calls);
    case Polling => StagePolls(w, a, calls);
    case _ =>
      assert calls + [] == calls;
      if w.pc in {SaveBatch, SaveUploaded, SavePassed, SaveArchive, SaveError} {
        StageSaves(w, a, calls);
      } else {
        StageElse(w, a, calls);
      }
  }

  lemma {:induction false} RunInOrder(w: World, script: seq<Answer>, before: seq<Effect>, calls: seq<Effect>)
    requires Stage(w, calls) && w.log == before + calls
    ensures before <= Exec(w, script).log && InOrder(Exec(w, script).log[|before|..])
    decreases |script|
  {
    if script == [] {
      assert (before + calls)[|before|..] == calls;
    } else {
      LogAfter(w, script[0]);
      StageNext(w, script[0], calls);
      assert before + calls + Called(w, script[0]) == before + (calls + Called(w, script[0]));
      RunInOrder(Next(w, script[0]), script[1..], before, calls + Called(w, script[0]));
    }
  }

  /**
   Whatever it meets, a fresh process makes its calls in this order: each poll asks for the
   batch that its one creation answered, and comes after an accepted upload.
   */
  lemma FreshRunIsInOrder(w: World, runId: nat, script: seq<Answer>)
    requires w.pc == Stopped
    ensures var later := Exec(Begin(w, false, runId), script).log;
            w.log <= later && InOrder(later[|w.log|..])
  {
    assert w.log + [] == w.log;
    RunInOrder(Begin(w, false, runId), script, w.log, []);
  }

  // ------------------------------------------------------------------- progress

  lemma ExecOne(w: World, a: Answer, rest: seq<Answer>)
    ensures Exec(w, [a] + rest) == Exec(Next(w, a), rest)
  {
    assert ([a] + rest)[1..] == rest;
  }

  lemma FourOnes<T>(a: T, b: T, c: T, d: T, rest: seq<T>)
    ensures [a, b, c, d] + rest == [a] + ([b] + ([c] + ([d] + rest)))
  {
  }

  lemma ExecFour(w: World, a: Answer, b: Answer, c: Answer, d: Answer, rest: seq<Answer>)
    ensures Exec(w, [a, b, c, d] + rest) == Exec(Next(Next(Next(Next(w, a), b), c), d), rest)
  {
    var w1 := Next(w, a);
    var w2 := Next(w1, b);
    FourOnes(a, b, c, d, rest);
    ExecOne(w, a, [b] + ([c] + ([d] + rest)));
    ExecOne(w1, b, [c] + ([d] + rest));
    ExecOne(w2, c, [d] + rest);
    ExecOne(Next(w2, c), d, rest);
  }

  /** `n` polls of a batch that is not done yet. */
  function Polls(disk: Option<Saved>, batch: Batch, n: nat): seq<Effect> {
    if n == 0 then [] else Polls(disk, batch, n - 1) + [Poll(disk, batch, false)]
  }

  function Pendings(n: nat): seq<Answer> {
    seq(n, _ => Pending)
  }

  lemma {:induction false} PollingGoesOn(w: World, n: nat, rest: seq<Answer>)
    requires w.pc == Polling && w.mem.batch.Some?
    ensures Exec(w, Pendings(n) + rest)
         == Exec(w.(log := w.log + Polls(w.disk, w.mem.batch.value, n)), rest)
  {
    if n == 0 {
      assert Pendings(0) + rest == rest && w.log + [] == w.log;
    } else {
      var batch := w.mem.batch.value;
      var w' := w.(log := w.log + Polls(w.disk, batch, n - 1));
      assert Pendings(n) + rest == Pendings(n - 1) + ([Pending] + rest);
      PollingGoesOn(w, n - 1, [Pending] + rest);
      ExecOne(w', Pending, rest);
      assert w.log + Polls(w.disk, batch, n - 1) + [Poll(w.disk, batch, false)] == w.log + Polls(w.disk, batch, n);
    }
  }

  lemma DoneIsFetched(w: World)
    requires w.pc == Polling && w.mem.batch.Some?
    ensures var mem := w.mem.(cloud := Passed, archive := true);
            Next(Next(Next(Next(w, Done), Fine), Fine), Fine)
            == World(Some(mem), w.log + [Poll(w.disk, w.mem.batch.value, true)], mem, Stopped, w.resume)
  {
    var passed := w.mem.(cloud := Passed);
    assert Next(Next(w, Done), Fine)
        == World(Some(passed), w.log + [Poll(w.disk, w.mem.batch.value, true)], passed, Download, w.resume);
  }

  lemma LastPollSucceeds(w: World)
    requires w.pc == Polling && w.mem.batch.Some?
    ensures var end := Exec(w, [Done, Fine, Fine, Fine]);
            && end.disk == Some(w.mem.(cloud := Passed, archive := true)) && end.pc == Stopped
            && end.log == w.log + [Poll(w.disk, w.mem.batch.value, true)]
  {
    assert [Done, Fine, Fine, Fine] + [] == [Done, Fine, Fine, Fine];
    ExecFour(w, Done, Fine, Fine, Fine, []);
    DoneIsFetched(w);
  }

  /** From the first poll on: after any number of pending answers the archive is fetched and on disk. */
  lemma PollingSucceeds(w: World, n: nat)
    requires w.pc == Polling && w.mem.batch.Some?
    ensures var batch := w.mem.batch.value;
            var end := Exec(w, Pendings(n) + [Done, Fine, Fine, Fine]);
            && end.disk == Some(w.mem.(cloud := Passed, archive := true)) && end.pc == Stopped
            && end.log == w.log + Polls(w.disk, batch, n) + [Poll(w.disk, batch, true)]
  {
    PollingGoesOn(w, n, [Done, Fine, Fine, Fine]);
    LastPollSucceeds(w.(log := w.log + Polls(w.disk, w.mem.batch.value, n)));
  }

  /**
   A fresh process on an empty directory whose every answer is good ends with one creation,
   one accepted upload, polls of that batch until it is done, and the archive on disk.
   */
  lemma FreshRunSucceeds(runId: nat, batch: Batch, n: nat)
    ensures var end := Exec(Begin(INITIAL, false, runId),
                            [Fine, Fine, Fine, Fine] + ([Got(batch), Fine, Fine, Fine]
                            + (Pendings(n) + [Done, Fine, Fine, Fine])));
            var intent := Saved(runId, 1, None, CreationAttempted, true, false, None);
            var sent := Saved(runId, 1, Some(batch), UploadAttempted, true, false, None);
            var polled := Some(sent.(cloud := Uploaded));
            && end.disk == Some(Saved(runId, 1, Some(batch), Passed, true, true, None)) && end.pc == Stopped
            && end.log == [Create(Some(intent), Some(batch)), Upload(Some(sent), true)]
                          + Polls(polled, batch, n) + [Poll(polled, batch, true)]
  {
    var last := Pendings(n) + [Done, Fine, Fine, Fine];
    var w := Begin(INITIAL, false, runId);
    ExecFour(w, Fine, Fine, Fine, Fine, [Got(batch), Fine, Fine, Fine] + last);
    var w4 := Next(Next(Next(Next(w, Fine), Fine), Fine), Fine);
    IntentIsSaved(runId);
    ExecFour(w4, Got(batch), Fine, Fine, Fine, last);
    UploadIsMade(w4, batch);
    PollingSucceeds(Next(Next(Next(Next(w4, Got(batch)), Fine), Fine), Fine), n);
  }

  lemma IntentIsSaved(runId: nat)
    ensures var intent := Saved(runId, 1, None, CreationAttempted, true, false, None);
            Next(Next(Next(Next(Begin(INITIAL, false, runId), Fine), Fine), Fine), Fine)
            == World(Some(intent), [], intent, CallCreate, false)
  {
  }

  lemma UploadIsMade(w: World, batch: Batch)
    requires w.pc == CallCreate
    ensures var sent := w.mem.(batch := Some(batch), cloud := UploadAttempted);
            var polled := sent.(cloud := Uploaded);
            Next(Next(Next(Next(w, Got(batch)), Fine), Fine), Fine)
            == World(Some(polled), w.log + [Create(w.disk, Some(batch)), Upload(Some(sent), true)],
                     polled, Polling, w.resume)
  {
    var create := Create(w.disk, Some(batch));
    var upload := Upload(Some(w.mem.(batch := Some(batch), cloud := UploadAttempted)), true);
    assert w.log + [create] + [upload] == w.log + [create, upload];
  }

  /** And a resume with good answers picks up the batch on disk and fetches its archive. */
  lemma ResumeSucceeds(w: World, runId: nat, n: nat)
    requires w.pc == Stopped && HasBatch(w.disk)
    ensures var found := w.disk.value.(preflight := true);
            var end := Exec(Begin(w, true, runId), [Fine] + ([Fine] + (Pendings(n) + [Done, Fine, Fine, Fine])));
            && end.disk == Some(found.(cloud := Passed, archive := true)) && end.pc == Stopped
            && end.log == w.log + Polls(Some(found), found.batch.value, n)
                          + [Poll(Some(found), found.batch.value, true)]
  {
    var last := Pendings(n) + [Done, Fine, Fine, Fine];
    var w1 := Next(Begin(w, true, runId), Fine);
    ExecOne(Begin(w, true, runId), Fine, [Fine] + last);
    ExecOne(w1, Fine, last);
    PollingSucceeds(Next(w1, Fine), n);
  }

  // ---------------------------------------------------------------------- failures

  lemma FailingNext(w: World, code: string, wrote: bool)
    requires w.pc != Stopped && w.pc != SaveError
    ensures var w' := Next(w, Raises(code, wrote));
            w'.pc == SaveError
            && w'.mem.error == Some(if w.pc == Polling && w.mem.batch.None? then "probe_failed" else code)
  {
  }

  lemma ErrorIsSaved(w: World)
    requires w.pc == SaveError
    ensures Exec(w, [Fine]).pc == Stopped && Exec(w, [Fine]).disk == Some(w.mem)
  {
    assert [Fine] + [] == [Fine];
    ExecOne(w, Fine, []);
  }

  /** The code of a failing call or save ends up on disk, and the process stops; to poll without a batch fails too. */
  lemma FailureIsSaved(w: World, code: string, wrote: bool)
    requires w.pc != Stopped && w.pc != SaveError
    ensures var end := Exec(w, [Raises(code, wrote)] + [Fine]);
            && end.pc == Stopped && end.disk.Some?
            && end.disk.value.error == Some(if w.pc == Polling && w.mem.batch.None? then "probe_failed" else code)
  {
    ExecOne(w, Raises(code, wrote), [Fine]);
    FailingNext(w, code, wrote);
    ErrorIsSaved(Next(w, Raises(code, wrote)));
  }

  /** A resume without a batch and a second fresh run are refused, each with its own code. */
  lemma RefusalIsSaved(w: World)
    requires w.pc == SavePreflight && if w.resume then w.mem.batch.None? else w.mem.attempts != 0
    ensures var code := if w.resume then "no_batch_do_not_resubmit" else "already_attempted_use_resume";
            var end := Exec(w, [Fine] + [Fine]);
            end.pc == Stopped && end.log == w.log && end.disk == Some(w.mem.(error := Some(code)))
  {
    ExecOne(w, Fine, [Fine]);
    ErrorIsSaved(Next(w, Fine));
    LogAfter(w, Fine);
    LogAfter(Next(w, Fine), Fine);
    assert [Fine] + [] == [Fine];
    ExecOne(Next(w, Fine), Fine, []);
  }

  /** So is the deadline. */
  lemma DeadlineIsSaved(w: World)
    requires w.pc == Polling
    ensures var end := Exec(w, [Expired] + [Fine]);
            end.pc == Stopped && end.disk == Some(w.mem.(error := Some("poll_timeout_remote_state_unknown")))
  {
    ExecOne(w, Expired, [Fine]);
    ErrorIsSaved(Next(w, Expired));
  }

  /** A save writes the whole state; one that fails or is killed has written all of it or nothing. */
  lemma SavesAreWhole(w: World, code: string, wrote: bool)
    requires w.pc in {SavePreflight, SaveAttempt, SaveBatch, SaveUploaded, SavePassed, SaveArchive, SaveError}
    ensures Next(w, Fine).disk == Some(w.mem)
    ensures Next(w, Killed(wrote)) == w.(disk := if wrote then Some(w.mem) else w.disk, pc := Stopped)
    ensures Next(w, Raises(code, wrote)).disk == if wrote then Some(w.mem) else w.disk
  {
  }

  /** A killed process stops where it is; nothing reaches the disk but what a save was writing. */
  lemma KilledProcessStops(w: World, wrote: bool)
    requires w.pc == Polling ==> w.mem.batch.Some?
    ensures var w' := Next(w, Killed(wrote));
            w'.pc == Stopped && w'.mem == w.mem && (w'.disk == w.disk || (wrote && w'.disk == Some(w.mem)))
  {
  }

  /** What the service answers when a call succeeds. */
  predicate Expected(pc: Pc, a: Answer) {
    match pc
    case CallCreate => a.Got?
    case Polling => a.Pending? || a.Done? || a.Expired?
    case _ => a.Fine?
  }

  /** Any other answer to a call is an error of its own. */
  lemma UnexpectedAnswerFails(w: World, a: Answer)
    requires w.pc in {Preflight, CloudPreflight, CallCreate, CallUpload, Polling, Download}
    requires !Expected(w.pc, a) && !a.Raises? && !a.Killed?
    ensures var w' := Next(w, a);
            w'.pc == SaveError && w'.mem == w.mem.(error := Some("probe_failed")) && w'.disk == w.disk
  {
  }
}
