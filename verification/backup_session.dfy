/**
  A backup session: acquiring its native resources (`newBackup`), one copy
  step (`backup.step`), and teardown (`backup.close`). The engine is an
  oracle: every native call's outcome is an input.
 */
module BackupSession {
  import opened Base

  /** Open flags of the engine's C API (sqlite3.h). */
  const SQLITE_OPEN_READONLY: bv32 := 0x1
  const SQLITE_OPEN_READWRITE: bv32 := 0x2
  const SQLITE_OPEN_CREATE: bv32 := 0x4
  const SQLITE_OPEN_URI: bv32 := 0x40

  /** The destination is opened read-write, created if missing, URI names allowed. */
  const DEST_FLAGS: bv32 := SQLITE_OPEN_READWRITE | SQLITE_OPEN_CREATE | SQLITE_OPEN_URI
  /** The source is opened read-only, URI names allowed. */
  const SRC_FLAGS: bv32 := SQLITE_OPEN_READONLY | SQLITE_OPEN_URI

  datatype Role = Dest | Src

  /** A native resource, identified by what was asked for when acquiring it. */
  datatype Resource =
    | DbHandle(role: Role, dsn: string, flags: bv32)
    | CName(role: Role, name: string)
    | BackupObject

  /**
    The engine's answers during setup: the two opens, the two C-string
    conversions, and `sqlite3_backup_init` (on failure: the destination's
    `errcode` and message).
   */
  datatype SetupOracle = SetupOracle(
    openDest: Attempt,
    convDest: Attempt,
    openSrc: Attempt,
    convSrc: Attempt,
    init: Option<NativeStatus>)

  /** A live session owns both connections, both C names and the backup object. */
  datatype Session = Session(
    destHandle: Resource,
    destName: Resource,
    srcHandle: Resource,
    srcName: Resource,
    backupHandle: Resource)

  datatype SetupResult = Opened(session: Session) | SetupFailed(err: Error)

  /** What `newBackup` returns, with the resources it acquired and released, in order. */
  datatype Setup = Setup(result: SetupResult, acquired: seq<Resource>, released: seq<Resource>)

  function Reverse<T>(s: seq<T>): (r: seq<T>)
    ensures |r| == |s|
    ensures forall i :: 0 <= i < |s| ==> r[i] == s[|s| - 1 - i]
  {
    if |s| == 0 then [] else Reverse(s[1..]) + [s[0]]
  }

  lemma ReverseSameMembers<T>(s: seq<T>)
    ensures forall x :: x in Reverse(s) <==> x in s
  {
    var r := Reverse(s);
    forall x | x in s ensures x in r {
      var i :| 0 <= i < |s| && s[i] == x;
      assert r[|s| - 1 - i] == x;
    }
  }

  predicate Distinct<T(==)>(s: seq<T>) {
    forall i, j :: 0 <= i < j < |s| ==> s[i] != s[j]
  }

  lemma ReverseDistinct<T>(s: seq<T>)
    requires Distinct(s)
    ensures Distinct(Reverse(s))
  {
    var r := Reverse(s);
    forall i, j | 0 <= i < j < |r| ensures r[i] != r[j] {
      assert r[i] == s[|s| - 1 - i] && r[j] == s[|s| - 1 - j];
    }
  }

  /**
    The deferred `freeOnError` calls at return, last registered first; each one
    frees only when the captured `err` is non-nil at that moment.
   */
  function Unwind(deferred: seq<Resource>, errIsSet: bool): (r: seq<Resource>) {
    if errIsSet then Reverse(deferred) else []
  }

  /**
    The acquisition sequence of `newBackup`. `initStoresErr` says whether a
    failed `sqlite3_backup_init` assigns the captured `err`: the source does
    not (`NewBackupAsWritten`), the corrected code does (`NewBackup`).
   */
  function Acquire(destDsn: string, destDb: string, srcDsn: string, srcDb: string,
                   o: SetupOracle, initStoresErr: bool): (r: Setup)
  {
    var dh := DbHandle(Dest, destDsn, DEST_FLAGS);
    var dn := CName(Dest, destDb);
    var sh := DbHandle(Src, srcDsn, SRC_FLAGS);
    var sn := CName(Src, srcDb);
    if o.openDest.Fail? then
      Setup(SetupFailed(Wrapped("unable to open dest db", o.openDest.err)), [], [])
    else if o.convDest.Fail? then
      Setup(SetupFailed(Wrapped("unable to convert dest db name to c string", o.convDest.err)),
            [dh], Unwind([dh], true))
    else if o.openSrc.Fail? then
      Setup(SetupFailed(Wrapped("unable to open src db", o.openSrc.err)),
            [dh, dn], Unwind([dh, dn], true))
    else if o.convSrc.Fail? then
      Setup(SetupFailed(Wrapped("unable to convert src db name to c string", o.convSrc.err)),
            [dh, dn, sh], Unwind([dh, dn, sh], true))
    else if o.init.Some? then
      Setup(SetupFailed(SqliteError(o.init.value.rc, o.init.value.text)),
            [dh, dn, sh, sn], Unwind([dh, dn, sh, sn], initStoresErr))
    else
      Setup(Opened(Session(dh, dn, sh, sn, BackupObject)), [dh, dn, sh, sn, BackupObject], [])
  }

  /** Every acquisition succeeds, `sqlite3_backup_init` included. */
  predicate SetupSucceeds(o: SetupOracle) {
    o.openDest.Ok? && o.convDest.Ok? && o.openSrc.Ok? && o.convSrc.Ok? && o.init.None?
  }

  /** Both opens and both name conversions succeed, and `sqlite3_backup_init` fails. */
  predicate OnlyInitFails(o: SetupOracle) {
    o.openDest.Ok? && o.convDest.Ok? && o.openSrc.Ok? && o.convSrc.Ok? && o.init.Some?
  }

  /** `newBackup` as the source writes it. */
  function NewBackupAsWritten(destDsn: string, destDb: string, srcDsn: string, srcDb: string,
                              o: SetupOracle): (s: Setup)
    ensures OnlyInitFails(o) ==> s.result.SetupFailed? && |s.acquired| == 4 && s.released == []
  {
    Acquire(destDsn, destDb, srcDsn, srcDb, o, false)
  }

  /**
    `newBackup` with the `backup_init` error stored in the captured `err`, so
    every failure path releases what it acquired.
   */
  function NewBackup(destDsn: string, destDb: string, srcDsn: string, srcDb: string,
                     o: SetupOracle): (s: Setup)
    ensures s.result.SetupFailed? ==> s.released == Reverse(s.acquired)
    ensures Distinct(s.acquired)
    ensures s.result.Opened? ==> s.released == [] && s.acquired == SessionResources(s.result.session)
    ensures s.result.Opened? <==> SetupSucceeds(o)
    ensures s.result.Opened? ==>
              s.result.session.destName == CName(Dest, destDb) && s.result.session.srcName == CName(Src, srcDb)
  {
    Acquire(destDsn, destDb, srcDsn, srcDb, o, true)
  }

  function SessionResources(s: Session): (r: seq<Resource>) {
    [s.destHandle, s.destName, s.srcHandle, s.srcName, s.backupHandle]
  }

  /**
    The two versions return the same value and acquire the same resources;
    they release different resources only when `backup_init` is what fails.
   */
  lemma NewBackupSameResult(destDsn: string, destDb: string, srcDsn: string, srcDb: string,
                            o: SetupOracle)
    ensures NewBackup(destDsn, destDb, srcDsn, srcDb, o).result
         == NewBackupAsWritten(destDsn, destDb, srcDsn, srcDb, o).result
    ensures NewBackup(destDsn, destDb, srcDsn, srcDb, o).acquired
         == NewBackupAsWritten(destDsn, destDb, srcDsn, srcDb, o).acquired
    ensures !OnlyInitFails(o) ==>
              (NewBackup(destDsn, destDb, srcDsn, srcDb, o).released
               == NewBackupAsWritten(destDsn, destDb, srcDsn, srcDb, o).released)
  {
  }

  /**
    Counterexample: when every acquisition succeeds and `backup_init` fails,
    the source returns the error yet releases none of the four resources.
   */
  lemma InitFailureLeaks(destDsn: string, destDb: string, srcDsn: string, srcDb: string, st: NativeStatus)
    ensures var o := SetupOracle(Ok, Ok, Ok, Ok, Some(st));
            var s := NewBackupAsWritten(destDsn, destDb, srcDsn, srcDb, o);
            && s.result == SetupFailed(SqliteError(st.rc, st.text))
            && s.acquired == [DbHandle(Dest, destDsn, DEST_FLAGS), CName(Dest, destDb),
                              DbHandle(Src, srcDsn, SRC_FLAGS), CName(Src, srcDb)]
            && s.released == []
            && NewBackup(destDsn, destDb, srcDsn, srcDb, o).released == Reverse(s.acquired)
  {
  }

  /** `backup.step`: nil exactly when the native status is OK, otherwise an error carrying it. */
  function Step(reply: NativeStatus): (r: Option<Error>)
    ensures r.None? <==> reply.rc == SQLITE_OK
    ensures r.Some? ==> r.value.SqliteError? && r.value.code == reply.rc && r.value.msg == reply.text
  {
    if reply.rc != SQLITE_OK then Some(SqliteError(reply.rc, reply.text)) else None
  }

  /** The engine's answers to the three teardown actions. */
  datatype TeardownOracle = TeardownOracle(finish: NativeStatus, closeSrc: NativeStatus, closeDest: NativeStatus)

  datatype Teardown = Teardown(err: Option<Error>, released: seq<Resource>)

  /** Reference: the error of the first non-OK status in order, if any. */
  function FirstFailure(statuses: seq<NativeStatus>): (r: Option<Error>) {
    if |statuses| == 0 then None
    else if statuses[0].rc != SQLITE_OK then Some(SqliteError(statuses[0].rc, statuses[0].text))
    else FirstFailure(statuses[1..])
  }

  /**
    `backup.close`: finish the backup, close the source, close the destination,
    each attempted whatever the earlier ones returned; keep the first error;
    then the deferred frees of the source and destination names.
   */
  function Close(s: Session, t: TeardownOracle): (r: Teardown)
    ensures r.err.None? <==>
              t.finish.rc == SQLITE_OK && t.closeSrc.rc == SQLITE_OK && t.closeDest.rc == SQLITE_OK
    ensures r.released == [s.backupHandle, s.srcHandle, s.destHandle, s.srcName, s.destName]
  {
    var err0: Option<Error> := None;
    var err1 := if t.finish.rc != SQLITE_OK then Some(SqliteError(t.finish.rc, t.finish.text)) else err0;
    var err2 := if t.closeSrc.rc != SQLITE_OK && err1.None? then Some(SqliteError(t.closeSrc.rc, t.closeSrc.text)) else err1;
    var err3 := if t.closeDest.rc != SQLITE_OK && err2.None? then Some(SqliteError(t.closeDest.rc, t.closeDest.text)) else err2;
    Teardown(err3, [s.backupHandle, s.srcHandle, s.destHandle, s.srcName, s.destName])
  }

  /** `close` reports the error of the first of its three actions that fails, in order. */
  lemma CloseReportsFirstFailure(s: Session, t: TeardownOracle)
    ensures Close(s, t).err == FirstFailure([t.finish, t.closeSrc, t.closeDest])
  {
    var all := [t.finish, t.closeSrc, t.closeDest];
    assert all[1..] == [t.closeSrc, t.closeDest];
    assert all[1..][1..] == [t.closeDest];
    assert all[1..][1..][1..] == [];
    assert FirstFailure(all[1..][1..]) == Step(t.closeDest);
    if t.finish.rc == SQLITE_OK {
      assert FirstFailure(all) == FirstFailure(all[1..]);
    }
  }
}
