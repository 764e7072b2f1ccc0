/**
  `Backup`: fold the options over the defaults, set up the session, drive
  the loop, and close the session in a deferred call whose error is kept
  only when nothing failed before it.
 */
module BackupDriver {
  import opened Base
  import opened BackupConfig
  import opened BackupSession
  import opened BackupLoop

  /** Everything outside the driver that decides how a run goes. */
  datatype Environment = Environment(setup: SetupOracle, ticks: seq<Tick>, teardown: TeardownOracle)

  /**
    How a call of `Backup` went: its ending, the loop's calls, whether
    `close` ran, and the native resources acquired and released, in order.
   */
  datatype BackupRun = BackupRun(
    ending: Ending,
    events: seq<Event>,
    closed: bool,
    acquired: seq<Resource>,
    released: seq<Resource>)

  const INIT_FAILED: string := "unable to initiate backup"

  /**
    What `Backup` does once `newBackup` has returned `s`: wrap a setup error,
    or run the loop and, when it returns, the deferred `close`.
   */
  function Drive(cfg: Config, s: Setup, env: Environment): (r: BackupRun)
    ensures r.closed ==> r.ending.Returned?
    ensures r.ending.StillLooping? ==> |r.events| == 3 * |env.ticks|
    ensures r.acquired == s.acquired && s.released <= r.released
  {
    match s.result
    case SetupFailed(e) =>
      BackupRun(Returned(Some(Wrapped(INIT_FAILED, e))), [], false, s.acquired, s.released)
    case Opened(session) =>
      var loop := LoopFrom(cfg, env.ticks);
      if loop.ending.StillLooping? then
        BackupRun(StillLooping, loop.events, false, s.acquired, s.released)
      else
        var t := Close(session, env.teardown);
        // deferred: if cerr := backup.close(); err == nil { err = cerr }
        var err := if loop.ending.err.Some? then loop.ending.err else t.err;
        BackupRun(Returned(err), loop.events, true, s.acquired, s.released + t.released)
  }

  /**
    `Backup` with the corrected `newBackup` (see `BackupSession.NewBackup`),
    which releases what it acquired on every failure path. The lemmas below
    are about this driver.
   */
  function Backup(destDsn: string, srcDsn: string, opts: seq<BackupOption>, env: Environment): (r: BackupRun)
    ensures r.closed ==> r.ending.Returned?
    ensures r.ending.StillLooping? ==> |r.events| == 3 * |env.ticks|
  {
    var cfg := Configure(opts);
    Drive(cfg, NewBackup(destDsn, cfg.destDb, srcDsn, cfg.srcDb, env.setup), env)
  }

  /** `Backup` as the source writes it, on top of `BackupSession.NewBackupAsWritten`. */
  function BackupAsWritten(destDsn: string, srcDsn: string, opts: seq<BackupOption>, env: Environment): (r: BackupRun)
    ensures r.closed ==> r.ending.Returned?
    ensures r.ending.StillLooping? ==> |r.events| == 3 * |env.ticks|
  {
    var cfg := Configure(opts);
    Drive(cfg, NewBackupAsWritten(destDsn, cfg.destDb, srcDsn, cfg.srcDb, env.setup), env)
  }


  /**
    The driver as written behaves exactly like the corrected one, except that
    when `backup_init` is what fails it returns the same error having released
    nothing: both handles and both C names stay allocated. On every other
    input it releases exactly what the corrected driver releases, so
    `NothingLeaks` holds for it there too.
   */
  lemma AsWrittenLeaksOnlyOnInitFailure(destDsn: string, srcDsn: string, opts: seq<BackupOption>, env: Environment)
    ensures var w := BackupAsWritten(destDsn, srcDsn, opts, env);
            var c := Backup(destDsn, srcDsn, opts, env);
            var cfg := Configure(opts);
            && w.ending == c.ending && w.events == c.events && w.closed == c.closed
            && w.acquired == c.acquired
            && (OnlyInitFails(env.setup) ==>
                  && w.acquired == [DbHandle(Dest, destDsn, DEST_FLAGS), CName(Dest, cfg.destDb),
                                    DbHandle(Src, srcDsn, SRC_FLAGS), CName(Src, cfg.srcDb)]
                  && w.released == []
                  && c.released == Reverse(w.acquired))
            && (!OnlyInitFails(env.setup) ==> w.released == c.released)
  {
    var cfg := Configure(opts);
    NewBackupSameResult(destDsn, cfg.destDb, srcDsn, cfg.srcDb, env.setup);
    if OnlyInitFails(env.setup) {
      InitFailureLeaks(destDsn, cfg.destDb, srcDsn, cfg.srcDb, env.setup.init.value);
    }
  }

  /** A failed setup is returned wrapped; `close` never runs and no step is taken. */
  lemma SetupFailureIsWrapped(destDsn: string, srcDsn: string, opts: seq<BackupOption>, env: Environment)
    requires !SetupSucceeds(env.setup)
    ensures var r := Backup(destDsn, srcDsn, opts, env);
            var cfg := Configure(opts);
            && r.ending == Returned(Some(Wrapped(INIT_FAILED,
                 NewBackup(destDsn, cfg.destDb, srcDsn, cfg.srcDb, env.setup).result.err)))
            && !r.closed
            && r.events == []
  {
  }

  /**
    Once set up, an error from the loop (a failed step or the context's
    error) is what `Backup` returns; `close`'s error is returned only when the
    loop itself returned nil.
   */
  lemma LoopErrorTakesPrecedence(destDsn: string, srcDsn: string, opts: seq<BackupOption>, env: Environment)
    requires SetupSucceeds(env.setup)
    ensures var r := Backup(destDsn, srcDsn, opts, env);
            var loop := LoopFrom(Configure(opts), env.ticks);
            var cfg := Configure(opts);
            var session := NewBackup(destDsn, cfg.destDb, srcDsn, cfg.srcDb, env.setup).result.session;
            && (loop.ending.Returned? ==> r.closed)
            && (loop.ending.Returned? && loop.ending.err.Some? ==> r.ending == loop.ending)
            && (loop.ending == Returned(None) ==> r.ending == Returned(Close(session, env.teardown).err))
            && r.events == loop.events
  {
  }

  /**
    With the corrected setup, every resource acquired is released by the time
    `Backup` returns, once each, on every path; while the loop is still
    running nothing has been released.
   */
  lemma NothingLeaks(destDsn: string, srcDsn: string, opts: seq<BackupOption>, env: Environment)
    ensures var r := Backup(destDsn, srcDsn, opts, env);
            && (r.ending.Returned? ==>
                  && |r.released| == |r.acquired|
                  && (forall x :: x in r.acquired <==> x in r.released)
                  && Distinct(r.released))
            && (r.ending.StillLooping? ==> r.released == [] && |r.acquired| == 5)
  {
    var cfg := Configure(opts);
    var s := NewBackup(destDsn, cfg.destDb, srcDsn, cfg.srcDb, env.setup);
    var r := Backup(destDsn, srcDsn, opts, env);
    assert r == Drive(cfg, s, env);
    if s.result.SetupFailed? {
      assert r.acquired == s.acquired && r.released == s.released;
      ReverseSameMembers(s.acquired);
      ReverseDistinct(s.acquired);
    } else if LoopFrom(cfg, env.ticks).ending.Returned? {
      var t := Close(s.result.session, env.teardown);
      assert r.released == s.released + t.released == t.released;
      assert r.acquired == SessionResources(s.result.session);
      CloseReleasesSession(s.result.session, env.teardown);
    }
  }

  /** `close` releases each of a session's five distinct resources exactly once. */
  lemma CloseReleasesSession(s: Session, t: TeardownOracle)
    requires Distinct(SessionResources(s))
    ensures var rel := Close(s, t).released;
            && |rel| == |SessionResources(s)|
            && (forall x :: x in SessionResources(s) <==> x in rel)
            && Distinct(rel)
  {
    var a := SessionResources(s);
    var rel := Close(s, t).released;
    assert rel == [a[4], a[2], a[0], a[3], a[1]];
  }

  /**
    `Backup` returns nil exactly when setup succeeds, the first iteration that
    does not continue is a DONE step, and all three teardown actions succeed.
   */
  lemma SucceedsExactlyWhen(destDsn: string, srcDsn: string, opts: seq<BackupOption>, env: Environment)
    ensures var r := Backup(destDsn, srcDsn, opts, env);
            var loop := LoopFrom(Configure(opts), env.ticks);
            r.ending == Returned(None) <==>
              && SetupSucceeds(env.setup)
              && loop.ending.Returned?
              && env.ticks[loop.consumed - 1].Stepped?
              && env.ticks[loop.consumed - 1].status.rc == SQLITE_DONE
              && env.teardown.finish.rc == SQLITE_OK
              && env.teardown.closeSrc.rc == SQLITE_OK
              && env.teardown.closeDest.rc == SQLITE_OK
  {
    LoopStopsAtFirstStop(Configure(opts), env.ticks);
  }

  /**
    With no options, every step asks for 50 pages, every pause is 250 ms,
    progress goes to the no-op callback, and the C names bound are "main".
   */
  lemma DefaultRun(destDsn: string, srcDsn: string, env: Environment)
    ensures var r := Backup(destDsn, srcDsn, [], env);
            && (forall e :: e in r.events ==> Configured(Config("main", "main", 250_000_000, 50, NoOpProgress), e))
            && (SetupSucceeds(env.setup) ==>
                  CName(Dest, "main") in r.acquired && CName(Src, "main") in r.acquired)
  {
    DefaultsWithoutOptions();
    LoopUsesConfig(Configure([]), env.ticks);
  }

  /**
    Cancellation seen before the first step: `Backup` returns the context's
    error whatever `close` says, without ever calling `step`.
   */
  lemma CancelledBeforeFirstStep(destDsn: string, srcDsn: string, opts: seq<BackupOption>, env: Environment)
    requires SetupSucceeds(env.setup)
    requires |env.ticks| > 0 && env.ticks[0].Cancelled?
    ensures var r := Backup(destDsn, srcDsn, opts, env);
            && r.ending == Returned(Some(ContextError(env.ticks[0].reason)))
            && r.events == []
            && r.closed
  {
    CancellationStopsStepping(Configure(opts), env.ticks, 0);
  }
}
