/**
  The driving loop of `Backup`: check for cancellation, take one step,
  classify the step's result, report progress, sleep, repeat.

  The engine and the context are an oracle trace: one `Tick` per iteration,
  saying either that the context was already done at the top of the
  iteration, or what `sqlite3_backup_step` returned together with the
  `remaining` and `pagecount` values sampled after it. The loop's observable
  behaviour is the sequence of calls it makes (`Event`s) and how it ends.
 */
module BackupLoop {
  import opened Base
  import opened BackupConfig
  import opened BackupSession

  datatype Tick =
    | Cancelled(reason: CtxReason)
    | Stepped(status: NativeStatus, remaining: int32, pagecount: int32)

  datatype Event =
    | StepCalled(nPage: int32)
    | ProgressReported(fn: ProgressFunc, remaining: int32, pagecount: int32)
    | Slept(d: int64)

  /** The loop has returned, or it is still running when the trace runs out. */
  datatype Ending = Returned(err: Option<Error>) | StillLooping

  /** How the loop ended, the calls it made, and how many ticks it used. */
  datatype LoopRun = LoopRun(ending: Ending, events: seq<Event>, consumed: nat)

  /** What the loop does with the error `step` returned. */
  datatype Verdict = Continue | Finish | Abort(err: Error)

  /**
    The classification of the `switch`: nil, BUSY and LOCKED keep going, DONE
    finishes, anything else (including an error that is not an `*Error`)
    aborts the loop with that very error.
   */
  function Classify(err: Option<Error>): (v: Verdict)
    ensures v.Abort? ==> err == Some(v.err)
    ensures v.Finish? <==> err.Some? && err.value.SqliteError? && err.value.code == SQLITE_DONE as int
    ensures v.Continue? <==>
              err.None? || (err.value.SqliteError? &&
                            (err.value.code == SQLITE_BUSY as int || err.value.code == SQLITE_LOCKED as int))
    ensures err.Some? && !err.value.SqliteError? ==> v == Abort(err.value)
  {
    match err
    case None => Continue
    case Some(e) =>
      if !e.SqliteError? then Abort(e)
      else if e.code == SQLITE_DONE as int then Finish
      else if e.code == SQLITE_BUSY as int || e.code == SQLITE_LOCKED as int then Continue
      else Abort(e)
  }

  /** A tick after which the loop goes on to its next iteration. */
  predicate Continues(t: Tick) {
    t.Stepped? && (t.status.rc == SQLITE_OK || t.status.rc == SQLITE_BUSY || t.status.rc == SQLITE_LOCKED)
  }

  /** A tick whose iteration calls the progress callback. */
  predicate Reports(t: Tick) {
    Continues(t) || (t.Stepped? && t.status.rc == SQLITE_DONE)
  }

  /** What the loop returns when it stops at tick `t`. */
  function StopValue(t: Tick): (r: Option<Error>)
    requires !Continues(t)
  {
    match t
    case Cancelled(reason) => Some(ContextError(reason))
    case Stepped(status, _, _) =>
      if status.rc == SQLITE_DONE then None else Some(SqliteError(status.rc, status.text))
  }

  /** Classifying a step's result by its native status code alone. */
  lemma VerdictOfStatus(st: NativeStatus)
    ensures Classify(Step(st)) == Continue <==>
              st.rc == SQLITE_OK || st.rc == SQLITE_BUSY || st.rc == SQLITE_LOCKED
    ensures Classify(Step(st)) == Finish <==> st.rc == SQLITE_DONE
    ensures Classify(Step(st)).Abort? ==> Classify(Step(st)).err == SqliteError(st.rc, st.text)
  {
  }

  /** The loop, as a function of the trace: the reference definition. */
  function LoopFrom(cfg: Config, ticks: seq<Tick>): (r: LoopRun)
    ensures r.consumed <= |ticks|
    ensures |ticks| > 0 ==> r.consumed > 0
    ensures r.ending.StillLooping? ==> r.consumed == |ticks| && |r.events| == 3 * |ticks|
    decreases |ticks|
  {
    if |ticks| == 0 then LoopRun(StillLooping, [], 0)
    else
      match ticks[0]
      case Cancelled(reason) => LoopRun(Returned(Some(ContextError(reason))), [], 1)
      case Stepped(status, remaining, pagecount) =>
        var step := StepCalled(cfg.pagesPerStep);
        var progress := ProgressReported(cfg.progressFunc, remaining, pagecount);
        match Classify(Step(status))
        case Abort(e) => LoopRun(Returned(Some(e)), [step], 1)
        case Finish => LoopRun(Returned(None), [step, progress], 1)
        case Continue =>
          var rest := LoopFrom(cfg, ticks[1..]);
          LoopRun(rest.ending, [step, progress, Slept(cfg.sleepPerStep)] + rest.events, rest.consumed + 1)
  }

  /** `r` with `es` and `n` ticks' worth of earlier iterations put in front. */
  function After(es: seq<Event>, n: nat, r: LoopRun): (run: LoopRun) {
    LoopRun(r.ending, es + r.events, r.consumed + n)
  }

  /** One unrolling of the reference loop at position `i` of the trace. */
  lemma UnfoldAt(cfg: Config, ticks: seq<Tick>, i: nat)
    requires i < |ticks|
    ensures ticks[i].Cancelled? ==>
              LoopFrom(cfg, ticks[i..]) == LoopRun(Returned(Some(ContextError(ticks[i].reason))), [], 1)
    ensures ticks[i].Stepped? ==>
              var t := ticks[i];
              var step := StepCalled(cfg.pagesPerStep);
              var progress := ProgressReported(cfg.progressFunc, t.remaining, t.pagecount);
              var v := Classify(Step(t.status));
              && (v.Abort? ==> LoopFrom(cfg, ticks[i..]) == LoopRun(Returned(Some(v.err)), [step], 1))
              && (v.Finish? ==> LoopFrom(cfg, ticks[i..]) == LoopRun(Returned(None), [step, progress], 1))
              && (v.Continue? ==>
                    LoopFrom(cfg, ticks[i..])
                    == After([step, progress, Slept(cfg.sleepPerStep)], 1, LoopFrom(cfg, ticks[i + 1..])))
  {
    assert ticks[i..][0] == ticks[i];
    assert ticks[i..][1..] == ticks[i + 1..];
  }

  /**
    The loop as the source writes it: a `for` whose post statement is the
    sleep, so every iteration that neither returns nor breaks sleeps, whether
    its step returned OK, BUSY or LOCKED. The sleep is not cancellable.
   */
  method RunLoop(cfg: Config, ticks: seq<Tick>) returns (run: LoopRun)
    ensures run == LoopFrom(cfg, ticks)
    ensures run.ending.StillLooping? ==> |run.events| == 3 * |ticks|
  {
    var events: seq<Event> := [];
    var i := 0;
    while i < |ticks|
      invariant 0 <= i <= |ticks|
      invariant |events| == 3 * i
      invariant LoopFrom(cfg, ticks) == After(events, i, LoopFrom(cfg, ticks[i..]))
      decreases |ticks| - i
    {
      UnfoldAt(cfg, ticks, i);
      var step := StepCalled(cfg.pagesPerStep);
      if ticks[i].Cancelled? {
        // select on ctx.Done(): return ctx.Err()
        assert events + [] == events;
        return LoopRun(Returned(Some(ContextError(ticks[i].reason))), events, i + 1);
      }
      var progress := ProgressReported(cfg.progressFunc, ticks[i].remaining, ticks[i].pagecount);
      match Classify(Step(ticks[i].status)) {
        case Abort(e) =>
          // default case, or an error that is not an *Error
          return LoopRun(Returned(Some(e)), events + [step], i + 1);
        case Finish =>
          // SQLITE_DONE: report, break L, then return nil
          return LoopRun(Returned(None), events + [step, progress], i + 1);
        case Continue =>
          // nil, or SQLITE_BUSY / SQLITE_LOCKED and `continue`: report, then
          // the post statement sleeps
      }
      ghost var rest := LoopFrom(cfg, ticks[i + 1..]);
      assert (events + [step, progress, Slept(cfg.sleepPerStep)]) + rest.events
          == events + ([step, progress, Slept(cfg.sleepPerStep)] + rest.events);
      events := events + [step, progress, Slept(cfg.sleepPerStep)];
      i := i + 1;
    }
    run := LoopRun(StillLooping, events, |ticks|);
  }

  /**
    The loop runs through the ticks that continue and stops at the first one
    that does not, returning that tick's value; if every tick continues, it
    is still running when the trace runs out.
   */
  lemma {:induction false} LoopStopsAtFirstStop(cfg: Config, ticks: seq<Tick>)
    ensures var r := LoopFrom(cfg, ticks);
            && (forall i :: 0 <= i < r.consumed - 1 ==> Continues(ticks[i]))
            && (r.ending.StillLooping? <==> forall i :: 0 <= i < |ticks| ==> Continues(ticks[i]))
            && (r.ending.Returned? ==>
                  && !Continues(ticks[r.consumed - 1])
                  && r.ending.err == StopValue(ticks[r.consumed - 1]))
    decreases |ticks|
  {
    if |ticks| > 0 {
      VerdictOfStatus(if ticks[0].Stepped? then ticks[0].status else NativeStatus(0, ""));
      if Continues(ticks[0]) {
        var rest := ticks[1..];
        LoopStopsAtFirstStop(cfg, rest);
        var r := LoopFrom(cfg, ticks);
        assert forall i :: 1 <= i < |ticks| ==> ticks[i] == rest[i - 1];
        if r.ending.Returned? {
          assert ticks[r.consumed - 1] == rest[r.consumed - 2];
        }
      }
    }
  }

  /** BUSY, LOCKED, OK and DONE are never returned as errors by the loop. */
  lemma RetryableNeverSurfaces(cfg: Config, ticks: seq<Tick>)
    ensures var r := LoopFrom(cfg, ticks);
            r.ending.Returned? && r.ending.err.Some? && r.ending.err.value.SqliteError? ==>
              r.ending.err.value.code !in {0, 5, 6, 101}
  {
    LoopStopsAtFirstStop(cfg, ticks);
  }

  datatype EventKind = StepKind | ProgressKind | SleepKind

  function KindOf(e: Event): (r: EventKind) {
    match e
    case StepCalled(_) => StepKind
    case ProgressReported(_, _, _) => ProgressKind
    case Slept(_) => SleepKind
  }

  function CountKind(es: seq<Event>, k: EventKind): (r: nat) {
    if |es| == 0 then 0 else (if KindOf(es[0]) == k then 1 else 0) + CountKind(es[1..], k)
  }

  function CountReporting(ts: seq<Tick>): (r: nat) {
    if |ts| == 0 then 0 else (if Reports(ts[0]) then 1 else 0) + CountReporting(ts[1..])
  }

  function CountStepped(ts: seq<Tick>): (r: nat) {
    if |ts| == 0 then 0 else (if ts[0].Stepped? then 1 else 0) + CountStepped(ts[1..])
  }

  lemma {:induction false} CountKindAppend(a: seq<Event>, b: seq<Event>, k: EventKind)
    ensures CountKind(a + b, k) == CountKind(a, k) + CountKind(b, k)
    decreases |a|
  {
    if |a| > 0 {
      assert (a + b)[0] == a[0];
      assert (a + b)[1..] == a[1..] + b;
      CountKindAppend(a[1..], b, k);
    } else {
      assert a + b == b;
    }
  }

  lemma CountKindOfThree(a: Event, b: Event, c: Event, k: EventKind)
    ensures CountKind([a, b, c], k)
         == (if KindOf(a) == k then 1 else 0) + (if KindOf(b) == k then 1 else 0) + (if KindOf(c) == k then 1 else 0)
  {
    assert [a, b, c][1..] == [b, c];
    assert [b, c][1..] == [c];
    assert [c][1..] == [];
    assert CountKind([c], k) == (if KindOf(c) == k then 1 else 0) + CountKind([], k);
    assert CountKind([b, c], k) == (if KindOf(b) == k then 1 else 0) + CountKind([c], k);
  }

  lemma CountKindOfTwo(a: Event, b: Event, k: EventKind)
    ensures CountKind([a, b], k) == (if KindOf(a) == k then 1 else 0) + (if KindOf(b) == k then 1 else 0)
    ensures CountKind([a], k) == (if KindOf(a) == k then 1 else 0)
  {
    assert [a, b][1..] == [b];
    assert [b][1..] == [];
    assert [a][1..] == [];
    assert CountKind([b], k) == (if KindOf(b) == k then 1 else 0) + CountKind([], k);
  }

  /**
    Progress is reported once for every consumed tick whose step returned OK,
    BUSY, LOCKED or DONE; `step` is called once for every consumed tick that
    was not a cancellation; the loop sleeps after every iteration except the
    one that returns.
   */
  lemma {:induction false} LoopCounts(cfg: Config, ticks: seq<Tick>)
    ensures var r := LoopFrom(cfg, ticks);
            && CountKind(r.events, ProgressKind) == CountReporting(ticks[..r.consumed])
            && CountKind(r.events, StepKind) == CountStepped(ticks[..r.consumed])
            && CountKind(r.events, SleepKind) == (if r.ending.Returned? then r.consumed - 1 else r.consumed)
    decreases |ticks|
  {
    var r := LoopFrom(cfg, ticks);
    if |ticks| > 0 {
      var t := ticks[0];
      var used := ticks[..r.consumed];
      assert used[0] == t;
      UnfoldAt(cfg, ticks, 0);
      assert ticks[0..] == ticks;
      if t.Stepped? {
        VerdictOfStatus(t.status);
        CountKindOfTwo(StepCalled(cfg.pagesPerStep), ProgressReported(cfg.progressFunc, t.remaining, t.pagecount), ProgressKind);
        CountKindOfTwo(StepCalled(cfg.pagesPerStep), ProgressReported(cfg.progressFunc, t.remaining, t.pagecount), StepKind);
        CountKindOfTwo(StepCalled(cfg.pagesPerStep), ProgressReported(cfg.progressFunc, t.remaining, t.pagecount), SleepKind);
      }
      if Continues(t) {
        var rest := LoopFrom(cfg, ticks[1..]);
        LoopCounts(cfg, ticks[1..]);
        var three := [StepCalled(cfg.pagesPerStep), ProgressReported(cfg.progressFunc, t.remaining, t.pagecount), Slept(cfg.sleepPerStep)];
        CountKindOfThree(three[0], three[1], three[2], ProgressKind);
        CountKindOfThree(three[0], three[1], three[2], StepKind);
        CountKindOfThree(three[0], three[1], three[2], SleepKind);
        CountKindAppend(three, rest.events, ProgressKind);
        CountKindAppend(three, rest.events, StepKind);
        CountKindAppend(three, rest.events, SleepKind);
        assert used[1..] == ticks[1..][..rest.consumed];
      } else {
        assert used == [t];
        assert used[1..] == [];
      }
    }
  }

  /** Each call is where the loop's structure puts it, with the configured arguments. */
  ghost predicate WellOrdered(cfg: Config, es: seq<Event>) {
    forall i :: 0 <= i < |es| ==> WellPlaced(cfg, es, i)
  }

  ghost predicate WellPlaced(cfg: Config, es: seq<Event>, i: nat)
    requires i < |es|
  {
    && Configured(cfg, es[i])
    && match es[i]
       case StepCalled(_) => i == 0 || es[i - 1].Slept?
       case ProgressReported(_, _, _) => i > 0 && es[i - 1].StepCalled?
       case Slept(_) => i > 0 && es[i - 1].ProgressReported?
  }

  /** The call carries the configured page count, callback or pause. */
  predicate Configured(cfg: Config, e: Event) {
    match e
    case StepCalled(n) => n == cfg.pagesPerStep
    case ProgressReported(f, _, _) => f == cfg.progressFunc
    case Slept(d) => d == cfg.sleepPerStep
  }

  /** Every call the loop makes uses the configuration it was given. */
  lemma LoopUsesConfig(cfg: Config, ticks: seq<Tick>)
    ensures forall e :: e in LoopFrom(cfg, ticks).events ==> Configured(cfg, e)
  {
    var es := LoopFrom(cfg, ticks).events;
    LoopEventsWellOrdered(cfg, ticks);
    forall e | e in es ensures Configured(cfg, e) {
      var i :| 0 <= i < |es| && es[i] == e;
      assert WellPlaced(cfg, es, i);
    }
  }

  /**
    Every iteration calls `step` before anything else; progress follows a
    step; the sleep follows a progress report; a new step follows a sleep.
   */
  lemma {:induction false} LoopEventsWellOrdered(cfg: Config, ticks: seq<Tick>)
    ensures WellOrdered(cfg, LoopFrom(cfg, ticks).events)
    ensures LoopFrom(cfg, ticks).events == [] || LoopFrom(cfg, ticks).events[0].StepCalled?
    decreases |ticks|
  {
    if |ticks| > 0 && Continues(ticks[0]) {
      VerdictOfStatus(ticks[0].status);
      LoopEventsWellOrdered(cfg, ticks[1..]);
      var rest := LoopFrom(cfg, ticks[1..]).events;
      var es := LoopFrom(cfg, ticks).events;
      forall i | 0 <= i < |es|
        ensures WellPlaced(cfg, es, i)
      {
        if i >= 3 {
          assert es[i] == rest[i - 3];
          assert WellPlaced(cfg, rest, i - 3);
          if i > 3 {
            assert es[i - 1] == rest[i - 4];
          }
        }
      }
    } else if |ticks| > 0 && ticks[0].Stepped? {
      VerdictOfStatus(ticks[0].status);
    }
  }

  /**
    Cancellation seen at iteration `k` returns the context's error at once:
    no `step` and no progress for that iteration, three calls for each
    earlier one.
   */
  lemma {:induction false} CancellationStopsStepping(cfg: Config, ticks: seq<Tick>, k: nat)
    requires k < |ticks| && ticks[k].Cancelled?
    requires forall i :: 0 <= i < k ==> Continues(ticks[i])
    ensures var r := LoopFrom(cfg, ticks);
            && r.ending == Returned(Some(ContextError(ticks[k].reason)))
            && r.consumed == k + 1
            && |r.events| == 3 * k
    decreases k
  {
    if k > 0 {
      VerdictOfStatus(ticks[0].status);
      assert forall i :: 0 <= i < k - 1 ==> ticks[1..][i] == ticks[i + 1];
      CancellationStopsStepping(cfg, ticks[1..], k - 1);
    }
  }

  /** A DONE step at iteration `k` ends the loop with nil, its progress report last. */
  lemma {:induction false} DoneEndsLoop(cfg: Config, ticks: seq<Tick>, k: nat)
    requires k < |ticks| && ticks[k].Stepped? && ticks[k].status.rc == SQLITE_DONE
    requires forall i :: 0 <= i < k ==> Continues(ticks[i])
    ensures var r := LoopFrom(cfg, ticks);
            && r.ending == Returned(None)
            && r.consumed == k + 1
            && |r.events| == 3 * k + 2
            && r.events[|r.events| - 1] == ProgressReported(cfg.progressFunc, ticks[k].remaining, ticks[k].pagecount)
    decreases k
  {
    VerdictOfStatus(ticks[0].status);
    if k > 0 {
      assert forall i :: 0 <= i < k - 1 ==> ticks[1..][i] == ticks[i + 1];
      DoneEndsLoop(cfg, ticks[1..], k - 1);
    }
  }
}
