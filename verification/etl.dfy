/**
 The transform-and-load step: a song-catalog file becomes one song and one
 artist insert per record; a listening-log file keeps its NextSong lines and
 becomes time inserts, user upserts and songplay inserts (with the song
 lookup); the driver runs one of those per file, committing after each.

 Each method is specified by a function over `Tables` (SongFileEffect,
 LogFileEffect, RunEffect) that describes its effect on the store; the
 properties of those functions are in module EtlProperties.  Parsing the
 files is not modelled: a file is given as its sequence of records.
 */
module Etl {
  import opened SqlQueries
  import Calendar

  /** One record of a song-catalog file. */
  datatype SongRecord = SongRecord(songId: string, title: string, artistId: string, year: int,
                                   duration: Float, artistName: string, artistLocation: string,
                                   artistLatitude: Float, artistLongitude: Float)

  /** One line of a listening-log file; `ts` is in epoch milliseconds. */
  datatype LogRecord = LogRecord(ts: int, userId: int, firstName: string, lastName: string,
                                 gender: string, level: string, page: string, song: string,
                                 artist: string, length: Float, sessionId: int, location: string,
                                 userAgent: string)

  /** The song columns of a catalog record. */
  function SongOf(r: SongRecord): (s: Song)
  {
    Song(r.title, r.artistId, r.year, r.duration)
  }

  /** The artist columns of a catalog record. */
  function ArtistOf(r: SongRecord): (a: Artist)
  {
    Artist(r.artistName, r.artistLocation, r.artistLatitude, r.artistLongitude)
  }

  /** The user columns of a log record. */
  function UserOf(r: LogRecord): (u: User)
  {
    User(r.firstName, r.lastName, r.gender, r.level)
  }

  /** The store after the song inserts of `recs`, in order. */
  function InsertSongs(t: Tables, recs: seq<SongRecord>): (r: Tables)
    decreases |recs|
  {
    if recs == [] then t
    else
      var n := |recs| - 1;
      var prev := InsertSongs(t, recs[..n]);
      WithSong(prev, recs[n].songId, SongOf(recs[n]))
  }

  /** The store after the artist inserts of `recs`, in order. */
  function InsertArtists(t: Tables, recs: seq<SongRecord>): (r: Tables)
    decreases |recs|
  {
    if recs == [] then t
    else
      var n := |recs| - 1;
      var prev := InsertArtists(t, recs[..n]);
      WithArtist(prev, recs[n].artistId, ArtistOf(recs[n]))
  }

  /** `process_song_file`: every song insert, then every artist insert. */
  function SongFileEffect(t: Tables, recs: seq<SongRecord>): (r: Tables)
  {
    InsertArtists(InsertSongs(t, recs), recs)
  }

  const NextSong := "NextSong"

  /**
   `df.loc[df['page'] == 'NextSong']`: the NextSong lines paired with their
   pandas row index, which is the 0-based position of the line in the file.
   */
  function NextSongRows(lines: seq<LogRecord>): (kept: seq<(nat, LogRecord)>)
    decreases |lines|
  {
    if lines == [] then []
    else
      var n := |lines| - 1;
      var prefix := NextSongRows(lines[..n]);
      if lines[n].page == NextSong then prefix + [(n, lines[n])] else prefix
  }

  /** The store after the time inserts of the kept lines, in order. */
  function InsertTimes(t: Tables, kept: seq<(nat, LogRecord)>): (r: Tables)
    decreases |kept|
  {
    if kept == [] then t
    else
      var n := |kept| - 1;
      var prev := InsertTimes(t, kept[..n]);
      WithTime(prev, kept[n].1.ts, Calendar.Decompose(kept[n].1.ts))
  }

  /** Same first name, last name and gender. */
  predicate SameIdentity(a: User, b: User)
  {
    a.firstName == b.firstName && a.lastName == b.lastName && a.gender == b.gender
  }

  /**
   The store after the user upserts of the kept lines, in order: a user's
   names and gender come from the row already stored or else from the user's
   first line, and the level from the user's last line.
   */
  function UpsertUsers(t: Tables, kept: seq<(nat, LogRecord)>): (r: Tables)
    decreases |kept|
  {
    if kept == [] then t
    else
      var n := |kept| - 1;
      var prev := UpsertUsers(t, kept[..n]);
      WithUser(prev, kept[n].1.userId, UserOf(kept[n].1))
  }

  /** The songplay row of a log record, given the result of the song lookup. */
  function SongplayOf(r: LogRecord, found: Option<(string, string)>): (p: Songplay)
  {
    Songplay(r.ts, r.userId, r.level,
             if found.Some? then Some(found.value.0) else None,
             if found.Some? then Some(found.value.1) else None,
             r.sessionId, r.location, r.userAgent)
  }

  /** The songplay row a log record gets in store `t`. */
  function PlayFor(t: Tables, r: LogRecord): (p: Songplay)
  {
    SongplayOf(r, SongSelect(t.songs, t.artists, r.song, r.artist, r.length))
  }

  /**
   The songplay inserts of the kept lines, in order, each keyed by the line's
   row index; the second component is false when an insert violated the
   UNIQUE constraint, in which case the lines after it are not processed.
   */
  function InsertSongplays(t: Tables, kept: seq<(nat, LogRecord)>): (r: (Tables, bool))
    decreases |kept|
  {
    if kept == [] then (t, true)
    else
      var n := |kept| - 1;
      var prev := InsertSongplays(t, kept[..n]);
      if !prev.1 then prev
      else
        match WithSongplay(prev.0, kept[n].0, PlayFor(prev.0, kept[n].1))
        case None => (prev.0, false)
        case Some(next) => (next, true)
  }

  /**
   `process_log_file`: the time inserts of every NextSong line, then the user
   upserts, then the lookup and songplay insert of each; false when a
   songplay insert failed.
   */
  function LogFileEffect(t: Tables, lines: seq<LogRecord>): (r: (Tables, bool))
  {
    var kept := NextSongRows(lines);
    InsertSongplays(UpsertUsers(InsertTimes(t, kept), kept), kept)
  }

  /** `process_song_file`: the song insert of every record, then the artist insert of every record. */
  method ProcessSongFile(st: Store, recs: seq<SongRecord>)
    modifies st
    ensures st.Contents() == SongFileEffect(old(st.Contents()), recs)
    ensures st.commits == old(st.commits) && st.committed == old(st.committed)
  {
    InsertSongRecords(st, recs);
    InsertArtistRecords(st, recs);
  }

  /** The song loop of `process_song_file`. */
  method InsertSongRecords(st: Store, recs: seq<SongRecord>)
    modifies st
    ensures st.Contents() == InsertSongs(old(st.Contents()), recs)
    ensures st.commits == old(st.commits) && st.committed == old(st.committed)
  {
    var i := 0;
    while i < |recs|
      invariant 0 <= i <= |recs|
      invariant st.Contents() == InsertSongs(old(st.Contents()), recs[..i])
      invariant st.commits == old(st.commits) && st.committed == old(st.committed)
    {
      st.InsertSong(recs[i].songId, SongOf(recs[i]));
      assert recs[..i + 1][..i] == recs[..i];
      i := i + 1;
    }
    assert recs[..i] == recs;
  }

  /** The artist loop of `process_song_file`. */
  method InsertArtistRecords(st: Store, recs: seq<SongRecord>)
    modifies st
    ensures st.Contents() == InsertArtists(old(st.Contents()), recs)
    ensures st.commits == old(st.commits) && st.committed == old(st.committed)
  {
    var i := 0;
    while i < |recs|
      invariant 0 <= i <= |recs|
      invariant st.Contents() == InsertArtists(old(st.Contents()), recs[..i])
      invariant st.commits == old(st.commits) && st.committed == old(st.committed)
    {
      st.InsertArtist(recs[i].artistId, ArtistOf(recs[i]));
      assert recs[..i + 1][..i] == recs[..i];
      i := i + 1;
    }
    assert recs[..i] == recs;
  }

  /** `process_log_file`; `ok` is false when a songplay insert failed, which ends the file. */
  method ProcessLogFile(st: Store, lines: seq<LogRecord>) returns (ok: bool)
    modifies st
    ensures (st.Contents(), ok) == LogFileEffect(old(st.Contents()), lines)
    ensures st.commits == old(st.commits) && st.committed == old(st.committed)
  {
    var kept := NextSongRows(lines);
    InsertTimeRecords(st, kept);
    InsertUserRecords(st, kept);
    ok := InsertSongplayRecords(st, kept);
  }

  /** The time-row loop of `process_log_file`. */
  method InsertTimeRecords(st: Store, kept: seq<(nat, LogRecord)>)
    modifies st
    ensures st.Contents() == InsertTimes(old(st.Contents()), kept)
    ensures st.commits == old(st.commits) && st.committed == old(st.committed)
  {
    var i := 0;
    while i < |kept|
      invariant 0 <= i <= |kept|
      invariant st.Contents() == InsertTimes(old(st.Contents()), kept[..i])
      invariant st.commits == old(st.commits) && st.committed == old(st.committed)
    {
      var ts := kept[i].1.ts;
      st.InsertTime(ts, Calendar.Decompose(ts));
      assert kept[..i + 1][..i] == kept[..i];
      i := i + 1;
    }
    assert kept[..i] == kept;
  }

  /** The user loop of `process_log_file`. */
  method InsertUserRecords(st: Store, kept: seq<(nat, LogRecord)>)
    modifies st
    ensures st.Contents() == UpsertUsers(old(st.Contents()), kept)
    ensures st.commits == old(st.commits) && st.committed == old(st.committed)
  {
    var i := 0;
    while i < |kept|
      invariant 0 <= i <= |kept|
      invariant st.Contents() == UpsertUsers(old(st.Contents()), kept[..i])
      invariant st.commits == old(st.commits) && st.committed == old(st.committed)
    {
      var row := kept[i].1;
      st.InsertUser(row.userId, UserOf(row));
      assert kept[..i + 1][..i] == kept[..i];
      i := i + 1;
    }
    assert kept[..i] == kept;
  }

  /** The lookup-and-songplay loop of `process_log_file`; stops at the first failed insert. */
  method InsertSongplayRecords(st: Store, kept: seq<(nat, LogRecord)>) returns (ok: bool)
    modifies st
    ensures (st.Contents(), ok) == InsertSongplays(old(st.Contents()), kept)
    ensures st.commits == old(st.commits) && st.committed == old(st.committed)
  {
    var i := 0;
    while i < |kept|
      invariant 0 <= i <= |kept|
      invariant InsertSongplays(old(st.Contents()), kept[..i]) == (st.Contents(), true)
      invariant st.commits == old(st.commits) && st.committed == old(st.committed)
    {
      var (index, row) := kept[i];
      var found := SongSelect(st.songs, st.artists, row.song, row.artist, row.length);
      assert kept[..i + 1][..i] == kept[..i];
      var inserted := st.InsertSongplay(index, SongplayOf(row, found));
      if !inserted {
        assert InsertSongplays(old(st.Contents()), kept[..i + 1]) == (st.Contents(), false);
        SongplaysStop(old(st.Contents()), kept, i + 1);
        return false;
      }
      i := i + 1;
    }
    assert kept[..i] == kept;
    return true;
  }

  /** A parsed data file: catalog records or log lines. */
  datatype DataFile = SongData(records: seq<SongRecord>) | LogData(lines: seq<LogRecord>)

  /** The per-file function handed to `process_data`. */
  datatype FileFunc = SongFileFunc | LogFileFunc

  /**
   The effect of the per-file function on one file.  Applying a function to
   a file of the other kind fails, and so does an empty file, whose frame has
   no columns at all: in both cases the columns it selects are missing, and
   it fails before its first write.
   */
  function FileEffect(t: Tables, func: FileFunc, file: DataFile): (r: (Tables, bool))
  {
    match file
    case SongData(recs) =>
      if func == SongFileFunc && recs != [] then (SongFileEffect(t, recs), true) else (t, false)
    case LogData(lines) =>
      if func == LogFileFunc && lines != [] then LogFileEffect(t, lines) else (t, false)
  }

  /**
   The outcome of a run of `process_data`: the live contents of the store,
   the contents as of the last commit, and the number of files completed.
   */
  datatype Run = Run(live: Tables, committed: Tables, done: nat)

  /**
   Running the per-file function over `files` in order from live contents
   `t` and committed contents `c`, committing after each file and stopping at
   the first failure, which leaves that file's writes uncommitted.
   */
  function RunEffect(t: Tables, c: Tables, files: seq<DataFile>, func: FileFunc): (r: Run)
    ensures r.done <= |files|
    decreases |files|
  {
    if files == [] then Run(t, c, 0)
    else
      var n := |files| - 1;
      var prev := RunEffect(t, c, files[..n], func);
      if prev.done < n then prev
      else
        var next := FileEffect(prev.live, func, files[n]);
        if next.1 then Run(next.0, next.0, n + 1) else Run(next.0, prev.committed, n)
  }

  /** `func(cur, datafile)`. */
  method Apply(st: Store, func: FileFunc, file: DataFile) returns (ok: bool)
    modifies st
    ensures (st.Contents(), ok) == FileEffect(old(st.Contents()), func, file)
    ensures st.commits == old(st.commits) && st.committed == old(st.committed)
  {
    match file
    case SongData(recs) =>
      if func == SongFileFunc && recs != [] {
        ProcessSongFile(st, recs);
        ok := true;
      } else {
        ok := false;
      }
    case LogData(lines) =>
      if func == LogFileFunc && lines != [] {
        ok := ProcessLogFile(st, lines);
      } else {
        ok := false;
      }
  }

  /**
   The loop of `process_data` over the already discovered files: apply the
   function to each file in list order, commit after each, and report
   progress i/n.  A failing file ends the run uncommitted.
   */
  method ProcessData(st: Store, files: seq<DataFile>, func: FileFunc) returns (progress: seq<(nat, nat)>, ok: bool)
    modifies st
    ensures RunEffect(old(st.Contents()), old(st.committed), files, func) == Run(st.Contents(), st.committed, |progress|)
    ensures ok == (|progress| == |files|)
    ensures st.commits == old(st.commits) + |progress|
    ensures forall j :: 0 <= j < |progress| ==> progress[j] == (j + 1, |files|)
  {
    ghost var start, committed0 := st.Contents(), st.committed;
    var numFiles := |files|;
    progress := [];
    var i := 0;
    while i < numFiles
      invariant 0 <= i <= numFiles && |progress| == i
      invariant RunEffect(start, committed0, files[..i], func) == Run(st.Contents(), st.committed, i)
      invariant st.commits == old(st.commits) + i
      invariant forall j :: 0 <= j < i ==> progress[j] == (j + 1, numFiles)
    {
      var fileOk := ProcessFile(st, files, func, i, start, committed0);
      if !fileOk {
        return progress, false;
      }
      ProgressStep(progress, progress + [(i + 1, numFiles)], i, numFiles);
      progress := progress + [(i + 1, numFiles)];
      i := i + 1;
    }
    assert files[..i] == files;
    return progress, true;
  }

  /** Appending the report of file i + 1 of n keeps the progress list in step. */
  lemma ProgressStep(progress: seq<(nat, nat)>, next: seq<(nat, nat)>, i: nat, n: nat)
    requires |progress| == i && forall j :: 0 <= j < i ==> progress[j] == (j + 1, n)
    requires next == progress + [(i + 1, n)]
    ensures forall j :: 0 <= j < i + 1 ==> next[j] == (j + 1, n)
  {
  }

  /**
   One iteration of `process_data`: apply the function to file `i` and commit.
   When the file fails, nothing is committed and the run's outcome is settled.
   */
  method ProcessFile(st: Store, files: seq<DataFile>, func: FileFunc, i: nat, ghost start: Tables, ghost committed0: Tables)
    returns (ok: bool)
    requires i < |files| && RunEffect(start, committed0, files[..i], func) == Run(st.Contents(), st.committed, i)
    modifies st
    ensures ok ==> RunEffect(start, committed0, files[..i + 1], func) == Run(st.Contents(), st.committed, i + 1)
    ensures !ok ==> RunEffect(start, committed0, files, func) == Run(st.Contents(), st.committed, i)
    ensures st.commits == old(st.commits) + (if ok then 1 else 0)
  {
    ok := Apply(st, func, files[i]);
    assert files[..i + 1][..i] == files[..i];
    if ok {
      st.Commit();
    } else {
      RunStops(start, committed0, files, func, i + 1);
    }
  }

  /** Once a run has stopped short, later files do not change its outcome. */
  lemma {:induction false} RunStops(t: Tables, c: Tables, files: seq<DataFile>, func: FileFunc, k: nat)
    requires k <= |files|
    requires RunEffect(t, c, files[..k], func).done < k
    ensures RunEffect(t, c, files, func) == RunEffect(t, c, files[..k], func)
    decreases |files| - k
  {
    if k < |files| {
      assert files[..k + 1][..k] == files[..k];
      RunStops(t, c, files, func, k + 1);
    } else {
      assert files[..k] == files;
    }
  }

  /** Once a songplay insert has failed, the later lines of the file do not change the outcome. */
  lemma {:induction false} SongplaysStop(t: Tables, kept: seq<(nat, LogRecord)>, k: nat)
    requires k <= |kept|
    requires !InsertSongplays(t, kept[..k]).1
    ensures InsertSongplays(t, kept) == InsertSongplays(t, kept[..k])
    decreases |kept| - k
  {
    if k < |kept| {
      assert kept[..k + 1][..k] == kept[..k];
      SongplaysStop(t, kept, k + 1);
    } else {
      assert kept[..k] == kept;
    }
  }
}
