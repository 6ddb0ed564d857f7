# Sparkify song-play ETL, modelled in Dafny

The system loads a music-streaming service's data into a PostgreSQL star
schema. The schema has four dimension tables, `songs`, `artists`, `users`
and `time`, and one fact table, `songplays`.

- `sql_queries.py` holds the SQL statements: one INSERT per table, each with
  its own ON CONFLICT policy, and the `song_select` lookup that joins songs
  to artists.
- `etl.py` runs those statements over two kinds of JSON-lines files.
  - `process_song_file` inserts one song and one artist per catalogue
    record.
  - `process_log_file` keeps the `NextSong` lines of a listening log. It
    decomposes each line's epoch-millisecond timestamp into
    hour/day/ISO-week/month/year/weekday, and inserts these time rows.
    Next it upserts the users, and last it looks up each line's song and
    inserts a songplay. The songplay is keyed by the line's row index in
    the file.
  - `process_data` applies one of those two functions to every file in
    turn, committing after each file and reporting progress `i/n`.

The project has five modules:

- `SqlQueries` (`sql_queries.dfy`): the row types, the store as a value
  (`Tables`, one map per table keyed by the primary key), and one function
  per statement (`WithSong`, `WithArtist`, `WithTime`, `WithUser`,
  `WithSongplay`, `SongSelect`).
  - `class Store` executes the statements in place on five map fields. It
    also keeps a commit counter and a snapshot of the committed contents.
  - Each `Store` method is specified by the matching `With*` function.
- `Calendar` (`calendar.dfy`): the timestamp decomposition on the
  proleptic Gregorian calendar. It uses day numbers counted from
  1970-01-01, ISO weeks, and weekdays with Monday = 0. Lemmas prove that
  every decomposed field is in range and that the date round-trips through
  `DaysFromCivil`. They also prove the decomposition of the epoch and of a
  sample timestamp.
- `LexOrder` (`lex_order.dfy`): the string order used to make the lookup's
  answer determinate.
- `Etl` (`etl.dfy`): the file records, and one specification function per
  step.
  - `SongFileEffect`, `NextSongRows`, `InsertTimes`, `UpsertUsers`,
    `InsertSongplays`, `LogFileEffect`, `FileEffect` and `RunEffect` are
    folds over the records, in the order the source issues its
    statements.
  - The imperative loops `ProcessSongFile`, `ProcessLogFile` and
    `ProcessData` are proved to change the `Store` exactly as those
    functions say.
- `EtlProperties` (`etl_properties.dfy`): what those functions guarantee.
  - First write wins for songs, artists and time rows.
  - The last level wins for users.
  - Songplay ids are the positions of the NextSong lines.
  - The lookup's song_id and artist_id are both null or come from one
    match.
  - A row index already used as a songplay_id drops the later play.
  - Integrity: every songplay's start_time, user, song and artist are
    stored. Every file and every run preserves this.
  - A run stops at the first failing file, and the committed contents are
    those after the last completed file.

`songplay_id` is the pandas row index of the log line (`etl.py:56`,
`etl.py:68`). The index restarts at 0 in every file, so ids skip the
non-NextSong lines and repeat across files. Because of
`ON CONFLICT (songplay_id) DO NOTHING`, a later file's play under a used id
is silently dropped. `NextSongRowsSpec`, `SongplaysFrame` and
`LaterPlayDropped` state this.

The DROP statements name `songplay`, `song` and `artist`
(`sql_queries.py:2`, `sql_queries.py:4`, `sql_queries.py:5`). The tables
are created as `songplays`, `songs` and `artists` (`sql_queries.py:11`,
`sql_queries.py:40`, `sql_queries.py:49`), so those three tables survive a
drop-and-create. This is noted here and not modelled: the DDL is not part
of the model.

Semantics chosen where the source leaves things to the database:

- A songplay insert under a new songplay_id whose (start_time, user_id,
  session_id) is already stored violates the UNIQUE constraint
  (`sql_queries.py:25`). The conflict clause names only the primary key
  (`sql_queries.py:82`), so this is an error. The statement changes
  nothing and the file stops there (`WithSongplay`, `InsertSongplays`).
- An error inside `process_data` ends the run. The failing file's writes
  are not committed (`RunEffect`).
- Applying a function to a file of the other kind fails, because the
  columns it selects do not exist.
- An empty file fails in the same way. `pd.read_json` (`etl.py:13`,
  `etl.py:32`) gives a frame without columns, so the column selection
  (`etl.py:16`, `etl.py:35`) fails before any write, and the run ends
  there (`FileEffect`, `Apply`). `SongFileEffect`, `LogFileEffect`,
  `ProcessSongFile` and `ProcessLogFile` describe a file with at least one
  record.

## Model

| member | source | states |
|---|---|---|
| SqlQueries.WithSong | sql_queries.py:98-106 | ON CONFLICT (song_id) DO NOTHING: song_id becomes a key; a stored song keeps its row; a new one gets the inserted row; no other table changes |
| SqlQueries.WithArtist | sql_queries.py:109-117 | ON CONFLICT (artist_id) DO NOTHING: artist_id becomes a key; a stored artist keeps its row; a new one gets the inserted row; no other table changes |
| SqlQueries.WithTime | sql_queries.py:120-130 | ON CONFLICT (start_time) DO NOTHING: start_time becomes a key; a stored time row is kept; a new one gets the inserted row; no other table changes |
| SqlQueries.WithUser | sql_queries.py:85-95 | upsert: a new user_id gets the whole row; an existing one keeps names and gender and takes the new level (EXCLUDED.level); other users and tables are unchanged |
| SqlQueries.WithSongplay | sql_queries.py:70-82 | an existing songplay_id is a no-op; otherwise it fails exactly when (start_time, user_id, session_id) is already stored (UNIQUE, line 25), and else inserts the row; only songplays changes |
| SqlQueries.SongSelectSpec | sql_queries.py:135-145 | the lookup is empty exactly when no song matches on title, artist name and duration through the join; otherwise it returns a matching song_id with that song's artist_id, which is a stored artist |
| SqlQueries.FirstWriteWins | sql_queries.py:98-130 | a second song, artist or time insert under a stored key changes nothing, whatever its row |
| SqlQueries.LastLevelWins | sql_queries.py:85-95 | two upserts of one user equal one with the first row's names and gender and the second row's level |
| SqlQueries.Store.constructor | sql_queries.py:10-65 | a new store has five empty tables and no commit |
| SqlQueries.Store.InsertSong | sql_queries.py:98-106 | executes song_table_insert in place: the new contents are WithSong of the old |
| SqlQueries.Store.InsertArtist | sql_queries.py:109-117 | executes artist_table_insert in place: the new contents are WithArtist of the old |
| SqlQueries.Store.InsertTime | sql_queries.py:120-130 | executes time_table_insert in place: the new contents are WithTime of the old |
| SqlQueries.Store.InsertUser | sql_queries.py:85-95 | executes user_table_insert in place: the new contents are WithUser of the old |
| SqlQueries.Store.InsertSongplay | sql_queries.py:70-82 | executes songplay_table_insert in place; returns false, changing nothing, exactly when WithSongplay fails |
| SqlQueries.Store.Commit | etl.py:92 | conn.commit(): contents unchanged, one more commit, and the committed snapshot is the current contents |
| LexOrder.Least | sql_queries.py:135-145 | the answer fetchone is modelled to give: a member of the non-empty set of matching song_ids that is least in string order |
| Calendar.HourOfSpec | etl.py:41 | t.dt.hour is in 0..23 and is the hour of the day that holds the timestamp |
| Calendar.ToShiftedSpec | etl.py:38 | a day number splits into a March-based year and a day of that year in 0..365 (365 only before a leap year), which maps back to the same day number |
| Calendar.SplitEraSpec | etl.py:38 | a day of a 400-year era splits into a year of the era and a day of that year, with the bounds and leap condition above |
| Calendar.DateOfShiftedSpec | etl.py:38 | an in-range shifted day gives a valid date (month 1..12, day within the month) that maps back to the same day number |
| Calendar.CivilFromDaysSpec | etl.py:38 | every day number has a valid calendar date, and DaysFromCivil maps that date back to the day number |
| Calendar.OrdinalDaySpec | etl.py:41 | the day of the year is in 0..365 and is the distance from 1 January of the same year |
| Calendar.WeekThursdaySpec | etl.py:41 | the Thursday of a day's Monday-to-Sunday week is a Thursday within three days of it, and is shared by the days of that week |
| Calendar.IsoWeekOfNextDay | etl.py:41 | two consecutive days of one Monday-to-Sunday week have the same t.dt.weekofyear |
| Calendar.DecomposeSpec | etl.py:38-41 | a decomposed timestamp has hour 0..23, weekday 0..6, ISO week 1..53, month 1..12 and a valid day; its date is the day holding the timestamp and its hour the hour holding it |
| Calendar.EpochDecomposition | etl.py:38-41 | timestamp 0 is hour 0 of Thursday 1 January 1970 (weekday 3) in ISO week 1 |
| Calendar.EpochDate | etl.py:38 | day 0 is 1 January 1970 |
| Calendar.EpochWeek | etl.py:41 | day 0 is in ISO week 1 |
| Calendar.SampleDate | etl.py:38 | day 17837 is 2 November 2018 |
| Calendar.SampleWeek | etl.py:41 | day 17837 is in ISO week 44 |
| Calendar.SampleDecomposition | etl.py:38-41 | 1541121934796 ms is 01:xx on Friday 2 November 2018 (weekday 4), ISO week 44 |
| Etl.ProcessSongFile | etl.py:7-23 | process_song_file changes the store exactly as SongFileEffect says: every song insert, then every artist insert, in record order |
| Etl.InsertSongRecords | etl.py:16-18 | the song loop changes the store exactly as InsertSongs says |
| Etl.InsertArtistRecords | etl.py:21-23 | the artist loop changes the store exactly as InsertArtists says |
| Etl.ProcessLogFile | etl.py:26-69 | process_log_file changes the store and reports failure exactly as LogFileEffect says: the time inserts, the user upserts, then the lookup and songplay insert of each NextSong line |
| Etl.InsertTimeRecords | etl.py:38-46 | the time loop inserts Decompose(ts) under ts for every kept line, in order (InsertTimes) |
| Etl.InsertUserRecords | etl.py:49-53 | the user loop upserts every kept line's user, in order (UpsertUsers) |
| Etl.InsertSongplayRecords | etl.py:56-69 | the songplay loop does the lookup and the insert keyed by the row index for each kept line, stopping at the first failed insert (InsertSongplays) |
| Etl.Apply | etl.py:91 | func(cur, datafile) changes the store as FileEffect says; a file of the other kind or an empty file fails before any write |
| Etl.ProcessData | etl.py:72-93 | the loop over the files ends in the state RunEffect gives; it commits once per completed file, reports progress (i, n) for i = 1..completed, and succeeds exactly when every file completed |
| Etl.ProcessFile | etl.py:90-93 | one iteration: a successful file advances the run by one file and one commit; a failed file settles the run's outcome without committing |
| Etl.RunEffect | etl.py:90-93 | a run completes at most as many files as it is given |
| Etl.RunStops | etl.py:90-93 | once a run has stopped short, later files do not change its outcome |
| Etl.SongplaysStop | etl.py:56-69 | once a songplay insert failed, the file's later lines do not change the outcome |
| EtlProperties.InsertSongsSpec | etl.py:16-18 | the song inserts add exactly the records' song_ids; stored songs keep their rows; each new song_id stores the first record carrying it; no other table changes |
| EtlProperties.InsertArtistsSpec | etl.py:21-23 | the artist inserts add exactly the records' artist_ids; stored artists keep their rows; each new artist_id stores the first record carrying it; no other table changes |
| EtlProperties.InsertSongsFirstWins | etl.py:16-18 | within a file, the first record with a new song_id is the one stored |
| EtlProperties.InsertArtistsFirstWins | etl.py:21-23 | within a file, the first record with a new artist_id is the one stored |
| EtlProperties.SongFileSpec | etl.py:7-23 | after a song file every record's song_id and artist_id are stored; stored songs and artists keep their rows; users, time and songplays are untouched |
| EtlProperties.SongFileIdempotent | etl.py:7-23 | loading a song file twice is the same as loading it once |
| EtlProperties.NextSongRowsSpec | etl.py:35 | the kept rows are exactly the NextSong lines, each with its 0-based position, in strictly increasing position order |
| EtlProperties.NonNextSongLine | etl.py:35 | a non-NextSong line appended to a file changes neither the kept rows nor anything the file does |
| EtlProperties.NoNextSongRows | etl.py:35 | lines without a NextSong line keep no row, and the log-file effect leaves the store as it was |
| EtlProperties.NoNextSongLines | etl.py:32-35 | a log file with lines but no NextSong line keeps no row, completes, and leaves the store as it was |
| EtlProperties.EmptyFileFails | etl.py:13-16 | an empty file fails under either per-file function and leaves the store as it was |
| EtlProperties.InsertTimesSpec | etl.py:38-46 | the time inserts add exactly the kept timestamps; stored time rows are kept; every new row is the decomposition of its timestamp; no other table changes |
| EtlProperties.TimeRowsValid | etl.py:41 | in a consistent store every time row has hour 0..23, a valid date, ISO week 1..53 and weekday 0..6 |
| EtlProperties.UpsertUsersSpec | etl.py:49-53 | users are exactly the stored and the kept user_ids; a stored user keeps names and gender; a new user has those of its first line; every kept user has the level of its last line; users without a line are unchanged |
| EtlProperties.UpsertUsersLastLevel | etl.py:52-53 | a user's level is the level of the user's last kept line |
| EtlProperties.UpsertUsersFirstIdentity | etl.py:52-53 | a user not stored before takes names and gender from its first kept line |
| EtlProperties.UpsertUsersKeepIdentity | etl.py:52-53 | the upserts never change a stored user's names or gender |
| EtlProperties.UpsertUsersUntouched | etl.py:52-53 | a stored user without a kept line is left as it was |
| EtlProperties.PlayForSpec | etl.py:59-68 | a songplay carries its line's ts, user, level, session, location and agent; song_id and artist_id are both null exactly when nothing matches, and otherwise are a matching song and that song's stored artist |
| EtlProperties.SongplaysFrame | etl.py:56-69 | the songplay inserts change only songplays, and every stored songplay keeps its row |
| EtlProperties.SongplaysNewRow | etl.py:68 | every new songplay is keyed by a kept line's row index and is that line's play |
| EtlProperties.SongplaysComplete | etl.py:56-69 | when every insert succeeded, every kept row index is a songplay_id |
| EtlProperties.SongplaysFailure | sql_queries.py:25 | when an insert failed, a kept line's index is not a songplay_id and its play repeats a stored (start_time, user_id, session_id) |
| EtlProperties.InsertSongplaysSpec | etl.py:56-69 | the four songplay facts above, combined |
| EtlProperties.LaterPlayDropped | sql_queries.py:82 | a log file keeps the play stored under every used songplay_id, so a later file's play under a used row index is dropped |
| EtlProperties.LogFileReload | etl.py:26-69 | loading a log file again after it succeeded changes nothing |
| EtlProperties.SongFileGrows | etl.py:7-23 | a song file only adds rows; users, time and songplays are untouched |
| EtlProperties.ConsistentGrows | sql_queries.py:21-24 | growing a consistent store without new time rows or songplays keeps it consistent |
| EtlProperties.SongFileConsistent | etl.py:7-23 | a song file keeps the store consistent and only grows it |
| EtlProperties.TimesAndUsersConsistent | etl.py:45-53 | the time inserts and user upserts keep the store consistent, only grow it, and store every kept timestamp and user |
| EtlProperties.SongplaysConsistent | sql_queries.py:21-24 | the songplay inserts keep the store consistent: every new play's start_time and user are stored, and its song and artist are stored or both null |
| EtlProperties.LogFileConsistent | etl.py:26-69 | a log file, complete or stopped at a failed insert, keeps the store consistent and only grows it |
| EtlProperties.FileConsistent | etl.py:91 | the per-file function keeps the store consistent and only grows it, on success and on failure |
| EtlProperties.RunConsistent | etl.py:90-93 | a run keeps both the live and the committed contents consistent, and only grows the live contents |
| EtlProperties.LoadConsistent | etl.py:105-106 | song files then log files, from an empty database, leave the live and committed contents consistent |
| EtlProperties.RunCompleted | etl.py:90-92 | every file a run completed succeeded, applied to what the files before it left |
| EtlProperties.RunFailure | etl.py:90-92 | a run that did not complete all files stopped at the first file that failed |
| EtlProperties.RunCommitted | etl.py:90-92 | the committed contents are the starting ones when no file completed, else the contents after the last completed file |
| EtlProperties.UpsertUsersStored | etl.py:52-53 | upserts that find every user stored with its last level change nothing |
| EtlProperties.InsertTimesStored | etl.py:45-46 | time inserts of stored timestamps change nothing |
| EtlProperties.SongplaysStored | sql_queries.py:82 | songplay inserts under used songplay_ids change nothing and succeed |
| EtlProperties.InsertSongsStored | sql_queries.py:106 | song inserts of stored song_ids change nothing |
| EtlProperties.InsertArtistsStored | sql_queries.py:117 | artist inserts of stored artist_ids change nothing |

## Left out

- Reading the JSON files (`pd.read_json`): a file is given as its sequence of parsed records, and an empty sequence stands for an empty file, which fails as described above. Parse errors and missing values are not modelled.
- File discovery (`os.walk`, `glob`, `os.path.abspath`, etl.py:79-83): `ProcessData` takes the already discovered list of files, in the order found.
- The printed messages (etl.py:87, etl.py:93): `ProcessData` returns the progress pairs (i, n) instead of printing them.
- The database connection, cursor and `conn.close()` in `main` (etl.py:102-108). `main` itself is not a member; `LoadConsistent` states what its two runs guarantee.
- The DDL (sql_queries.py:1-66, 149-150): creating and dropping tables, the DROP/CREATE name mismatch described above, column types, and NOT NULL.
- The ENUM types for level and gender (sql_queries.py:29-30): values outside them are not rejected.
- The FOREIGN KEY checks (sql_queries.py:21-24): the database is not modelled as rejecting rows. Instead, `Consistent` and its lemmas prove that the ETL only ever stores songplays whose references resolve.
- Floating-point columns (duration, latitude, longitude, length): `Float` is compared for equality only, with no rounding between pandas, psycopg2 and PostgreSQL.
- The timestamp type: start_time is kept as epoch milliseconds instead of a `timestamp`. The conversion is injective, so keys and joins behave the same.
- Python and PostgreSQL integer widths: all integers are unbounded.
- Calendar.Decompose: decomposes every integer timestamp. `pd.to_datetime(df['ts'], unit='ms')` (etl.py:38) raises OutOfBoundsDatetime for a NextSong `ts` outside the datetime64[ns] range (about ±9.22e12 ms, 1677-09-21 to 2262-04-11), which ends the run. The model does not have that error path.
- Transaction isolation and concurrency: a single client is assumed, and an uncommitted failed file is represented only by the committed snapshot.
- SqlQueries.SongSelect: the query has no ORDER BY, so which matching row fetchone returns is unspecified. The model returns the least song_id. The properties proved about the lookup (`SongSelectSpec`, `PlayForSpec`) hold for any matching choice, apart from the leastness clause.
