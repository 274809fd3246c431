/** The preload bridge's SQLite file access (electron/preload.ts): only the
    database file and its two journal files may be asked for. */
module ElectronPreload {
  import opened Base

  const ALLOWED_SQLITE_FILES := ["sizewise.db", "sizewise.db-wal", "sizewise.db-shm"]
  const INVALID_SQLITE_FILENAME := "Invalid SQLite filename"
  const DEV_SQLITE_DIR := "/sqlite/"

  /** validateSQLiteFilename: a non-string argument is refused. */
  predicate ValidateSqliteFilename(filename: JsValue) {
    match filename
    case NonString => false
    case Str(s) => s in ALLOWED_SQLITE_FILES
  }

  /** Where the file is served from: a URL path in development, or the
      file under `<resourcesPath>/web/sqlite/` in a packaged build (the
      joining of that path is not modelled). */
  datatype SqlitePath = DevUrl(path: string) | PackagedFile(resourcesPath: string, file: string)

  /** getSQLitePath. */
  function GetSqlitePath(filename: JsValue, dev: bool, resourcesPath: string): (r: Result<SqlitePath, string>)
    ensures r.Failure? <==> !ValidateSqliteFilename(filename)
    ensures r.Failure? ==> r.error == INVALID_SQLITE_FILENAME
    ensures r.Success? && dev ==> r.value == DevUrl(DEV_SQLITE_DIR + filename.s)
    ensures r.Success? && !dev ==> r.value == PackagedFile(resourcesPath, filename.s)
  {
    if !ValidateSqliteFilename(filename) then Failure(INVALID_SQLITE_FILENAME)
    else if dev then Success(DevUrl(DEV_SQLITE_DIR + filename.s))
    else Success(PackagedFile(resourcesPath, filename.s))
  }

  /** In development the bridge hands out exactly three paths. */
  lemma DevPathsAreTheThree(filename: JsValue, resourcesPath: string)
    ensures var r := GetSqlitePath(filename, true, resourcesPath);
      r.Success? <==> filename.Str? && filename.s in ALLOWED_SQLITE_FILES
    ensures var r := GetSqlitePath(filename, true, resourcesPath);
      r.Success? ==> r.value.path in ["/sqlite/sizewise.db", "/sqlite/sizewise.db-wal", "/sqlite/sizewise.db-shm"]
  {
    if filename.Str? {
      var s := filename.s;
      if s == "sizewise.db" {
        assert DEV_SQLITE_DIR + s == "/sqlite/sizewise.db";
      } else if s == "sizewise.db-wal" {
        assert DEV_SQLITE_DIR + s == "/sqlite/sizewise.db-wal";
      } else if s == "sizewise.db-shm" {
        assert DEV_SQLITE_DIR + s == "/sqlite/sizewise.db-shm";
      }
    }
  }

  /** A non-string argument never resolves. */
  lemma NonStringRefused(dev: bool, resourcesPath: string)
    ensures GetSqlitePath(NonString, dev, resourcesPath) == Failure(INVALID_SQLITE_FILENAME)
  {
  }
}
