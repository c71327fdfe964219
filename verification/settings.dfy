/** The settings page: backing up every object store to a JSON file and
    restoring the stores from such a file. */
module Settings {
  import opened Wrappers
  import opened Seqs
  import opened Records
  import opened ObjectStore
  import opened IsoDate

  /** The one object store of database `TypeDB`, version 1. */
  const ResearchData: string := "research_data"

  const BackupPrefix: string := "type_app_backup_"
  const BackupSuffix: string := ".json"

  /** The object stores of the database, by name. */
  type Database = map<string, Store>

  /** A parsed backup file: the arrays under each store name. A name whose
      value is falsy (`null`) is `None`. */
  type BackupData = map<string, Option<seq<Record>>>

  /** `handleBackupData` up to `JSON.stringify`: the contents of every
      listed store that exists, as `getAll` returns them. */
  function Backup(db: Database, env: Env): (r: Result<BackupData, StoreError>)
    ensures env == OpenFails ==> r == Failure(StorageUnavailable)
    ensures env == Working ==> r.Success?
    ensures env == RequestFails ==> (r.Success? <==> ResearchData !in db)
    ensures r.Success? ==> r.value.Keys == db.Keys * {ResearchData}
    ensures r.Success? ==> forall n :: n in r.value ==> r.value[n] == Some(GetAll(db[n]))
  {
    if env == OpenFails then Failure(StorageUnavailable)
    else if ResearchData in db then
      match ReadAll(db[ResearchData], env)
      case Success(all) => Success(map[ResearchData := Some(all)])
      case Failure(e) => Failure(e)
    else Success(map[])
  }

  /** `type_app_backup_${new Date().toISOString().slice(0, 10)}.json`;
      `toISOString` throws for a time value out of range. */
  function BackupFileName(now: int): (r: Option<string>)
    ensures r.Some? <==> ToIsoString(now).Some?
    ensures r.Some? ==> BackupPrefix <= r.value
  {
    match ToIsoString(now)
    case Some(iso) => Some(BackupPrefix + Take(iso, 10) + BackupSuffix)
    case None => None
  }

  /** Within years 0..9999 the file name holds exactly the UTC date of the
      backup, `YYYY-MM-DD`. */
  lemma BackupFileNameDate(now: int)
    requires -MaxTimeValue <= now <= MaxTimeValue
    requires 0 <= DateOfDay(now / MsPerDay).year <= 9999
    ensures BackupFileName(now) == Some(BackupPrefix + DateText(DateOfDay(now / MsPerDay)) + BackupSuffix)
    ensures |BackupFileName(now).value| == 31
  {
    IsoDatePrefix(now);
  }

  /** Two backups get the same file name exactly when they are taken on the
      same UTC day (within years 0..9999). */
  lemma BackupFileNamesByDay(t1: int, t2: int)
    requires -MaxTimeValue <= t1 <= MaxTimeValue && -MaxTimeValue <= t2 <= MaxTimeValue
    requires 0 <= DateOfDay(t1 / MsPerDay).year <= 9999
    requires 0 <= DateOfDay(t2 / MsPerDay).year <= 9999
    ensures BackupFileName(t1) == BackupFileName(t2) <==> t1 / MsPerDay == t2 / MsPerDay
  {
    var d1 := DateOfDay(t1 / MsPerDay);
    var d2 := DateOfDay(t2 / MsPerDay);
    BackupFileNameDate(t1);
    BackupFileNameDate(t2);
    if BackupFileName(t1) == BackupFileName(t2) {
      var n := BackupFileName(t1).value;
      assert DateText(d1) == n[16..26] == DateText(d2);
      DateTextInjective(d1, d2);
      DateOfDayRoundTrip(t1 / MsPerDay);
      DateOfDayRoundTrip(t2 / MsPerDay);
    }
  }

  /** The first loop of the restore: every named store that exists is
      cleared. */
  function ClearPhase(db: Database, names: set<string>): (r: Database)
    ensures r.Keys == db.Keys
    ensures forall n :: n in db && n in names ==> r[n].records == map[] && r[n].nextKey == db[n].nextKey
    ensures forall n :: n in db && n !in names ==> r[n] == db[n]
  {
    map n | n in db :: if n in names then Clear(db[n]) else db[n]
  }

  /** The second loop: every named store that exists and has an array
      under its name gets the array's items put into it. */
  function PutPhase(db: Database, data: BackupData): (r: Database)
    ensures r.Keys == db.Keys
    ensures forall n :: n in db && n in data && data[n].Some? ==> r[n] == PutAll(db[n], data[n].value)
    ensures forall n :: n in db && !(n in data && data[n].Some?) ==> r[n] == db[n]
  {
    map n | n in db :: if n in data && data[n].Some? then PutAll(db[n], data[n].value) else db[n]
  }

  /** Whether the second loop writes anything. */
  predicate WritesSomething(db: Database, data: BackupData) {
    exists n :: n in db && n in data && data[n].Some?
  }

  /** What the restore is given: no file, a file the reader could not read,
      text that is not JSON, or the parsed backup. */
  datatype RestoreFile = NoFile | Unreadable | NotJson | Parsed(data: BackupData)

  datatype RestoreError = InvalidJson | Storage(error: StoreError)

  datatype RestoreStatus = NoFileSelected | ReadError | RestoreFailed(error: RestoreError) | Restored

  datatype Restoring = Restoring(db: Database, status: RestoreStatus)

  /** `handleRestoreData`. With `RequestFails` the clears succeed and the
      put transactions fail. */
  function Restore(db: Database, file: RestoreFile, env: Env): (r: Restoring)
    ensures r.db.Keys == db.Keys
    ensures !file.Parsed? || env == OpenFails ==> r.db == db
    ensures r.status == Restored <==> file.Parsed? && (env == Working || (env == RequestFails && !WritesSomething(db, file.data)))
    ensures file.Parsed? && env != OpenFails ==> forall n :: n in db && n !in file.data ==> r.db[n] == db[n]
  {
    match file
    case NoFile => Restoring(db, NoFileSelected)
    case Unreadable => Restoring(db, ReadError)
    case NotJson => Restoring(db, RestoreFailed(InvalidJson))
    case Parsed(data) =>
      match env
      case OpenFails => Restoring(db, RestoreFailed(Storage(StorageUnavailable)))
      case RequestFails =>
        var cleared := ClearPhase(db, data.Keys);
        Restoring(cleared, if WritesSomething(db, data) then RestoreFailed(Storage(WriteFailed)) else Restored)
      case Working =>
        Restoring(PutPhase(ClearPhase(db, data.Keys), data), Restored)
  }

  /** A successful restore replaces the contents of every store the file
      names with the file's items, the last item per id winning; a falsy
      value empties the store. The key generators never move back. */
  lemma RestoreContents(db: Database, data: BackupData)
    ensures var r := Restore(db, Parsed(data), Working).db;
      forall n :: n in db && n in data ==>
        && r[n].records == (if data[n].Some? then LastById(data[n].value) else map[])
        && db[n].nextKey <= r[n].nextKey
  {
    var cleared := ClearPhase(db, data.Keys);
    forall n | n in db && n in data && data[n].Some?
      ensures PutAll(cleared[n], data[n].value).records == LastById(data[n].value)
    {
      PutAllIntoEmpty(cleared[n], data[n].value);
    }
  }

  /** Restoring a backup of a database whose stores are valid gives back
      the same database, contents and key generators. */
  lemma BackupRestoreRoundTrip(db: Database)
    requires forall n :: n in db ==> Valid(db[n])
    ensures Restore(db, Parsed(Backup(db, Working).value), Working) == Restoring(db, Restored)
  {
    var data := Backup(db, Working).value;
    var cleared := ClearPhase(db, data.Keys);
    var r := PutPhase(cleared, data);
    assert Restore(db, Parsed(data), Working) == Restoring(r, Restored);
    forall n | n in db ensures r[n] == db[n] {
      if n in data {
        assert data[n] == Some(GetAll(db[n]));
        assert r[n] == PutAll(Clear(db[n]), GetAll(db[n]));
        ClearThenPutAllIdentity(db[n]);
      }
    }
    assert r == db;
  }
}
