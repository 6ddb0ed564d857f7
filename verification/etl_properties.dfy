/**
 What the transform-and-load step guarantees, proved about the functions of
 module Etl that specify its methods: first write wins for songs and artists
 within and across files, NextSong filtering with row indices as songplay
 ids, last level wins for users, the lookup's both-or-neither ids, and the
 referential integrity of the store, kept by every file and every run.
 */
module EtlProperties {
  import opened SqlQueries
  import opened Etl
  import Calendar

  // ---------------------------------------------------------------------
  // Song files

  /** The song_ids of the catalog records. */
  function SongIds(recs: seq<SongRecord>): (r: set<string>)
  {
    set i | 0 <= i < |recs| :: recs[i].songId
  }

  /** The artist_ids of the catalog records. */
  function ArtistIds(recs: seq<SongRecord>): (r: set<string>)
  {
    set i | 0 <= i < |recs| :: recs[i].artistId
  }

  /** Record `i` is the first of `recs` with its song_id. */
  predicate FirstSongAt(recs: seq<SongRecord>, i: int)
    requires 0 <= i < |recs|
  {
    forall j :: 0 <= j < i ==> recs[j].songId != recs[i].songId
  }

  /** Record `i` is the first of `recs` with its artist_id. */
  predicate FirstArtistAt(recs: seq<SongRecord>, i: int)
    requires 0 <= i < |recs|
  {
    forall j :: 0 <= j < i ==> recs[j].artistId != recs[i].artistId
  }

  /** The song_ids of a non-empty sequence of records: those of all but the last, and the last one's. */
  lemma SongIdsSnoc(recs: seq<SongRecord>)
    requires recs != []
    ensures SongIds(recs) == SongIds(recs[..|recs| - 1]) + {recs[|recs| - 1].songId}
  {
    var prefix := recs[..|recs| - 1];
    assert forall i :: 0 <= i < |prefix| ==> prefix[i] == recs[i];
  }

  /** The artist_ids of a non-empty sequence of records: those of all but the last, and the last one's. */
  lemma ArtistIdsSnoc(recs: seq<SongRecord>)
    requires recs != []
    ensures ArtistIds(recs) == ArtistIds(recs[..|recs| - 1]) + {recs[|recs| - 1].artistId}
  {
    var prefix := recs[..|recs| - 1];
    assert forall i :: 0 <= i < |prefix| ==> prefix[i] == recs[i];
  }

  /** The song inserts of a file touch no table but `songs`, add exactly the records' song_ids and keep stored songs. */
  lemma {:induction false} InsertSongsFrame(t: Tables, recs: seq<SongRecord>)
    ensures var r := InsertSongs(t, recs);
            && r.songs.Keys == t.songs.Keys + SongIds(recs)
            && (forall k :: k in t.songs ==> r.songs[k] == t.songs[k])
            && r.artists == t.artists && r.users == t.users && r.time == t.time && r.songplays == t.songplays
    decreases |recs|
  {
    if recs != [] {
      InsertSongsFrame(t, recs[..|recs| - 1]);
      SongIdsSnoc(recs);
    }
  }

  /** Within a file, the first record carrying a new song_id is the one stored (first write wins). */
  lemma {:induction false} InsertSongsFirstWins(t: Tables, recs: seq<SongRecord>, i: int)
    requires 0 <= i < |recs| && recs[i].songId !in t.songs && FirstSongAt(recs, i)
    ensures recs[i].songId in InsertSongs(t, recs).songs
    ensures InsertSongs(t, recs).songs[recs[i].songId] == SongOf(recs[i])
    decreases |recs|
  {
    var n := |recs| - 1;
    var prefix := recs[..n];
    var p := InsertSongs(t, prefix);
    assert InsertSongs(t, recs) == WithSong(p, recs[n].songId, SongOf(recs[n]));
    if i < n {
      assert prefix[i] == recs[i];
      assert FirstSongAt(prefix, i) by {
        assert forall j :: 0 <= j < i ==> prefix[j] == recs[j];
      }
      InsertSongsFirstWins(t, prefix, i);
    } else {
      InsertSongsFrame(t, prefix);
      assert recs[n].songId !in SongIds(prefix);
      assert recs[n].songId !in p.songs;
    }
  }

  /**
   The song inserts of a file add exactly the records' song_ids, leave every
   song already stored as it was, store for each new song_id the record that
   first carries it, and touch no other table.
   */
  lemma InsertSongsSpec(t: Tables, recs: seq<SongRecord>)
    ensures var r := InsertSongs(t, recs);
            && r.songs.Keys == t.songs.Keys + SongIds(recs)
            && (forall k :: k in t.songs ==> r.songs[k] == t.songs[k])
            && (forall i :: 0 <= i < |recs| && recs[i].songId !in t.songs && FirstSongAt(recs, i) ==>
                  r.songs[recs[i].songId] == SongOf(recs[i]))
            && r.artists == t.artists && r.users == t.users && r.time == t.time && r.songplays == t.songplays
  {
    InsertSongsFrame(t, recs);
    forall i | 0 <= i < |recs| && recs[i].songId !in t.songs && FirstSongAt(recs, i)
      ensures InsertSongs(t, recs).songs[recs[i].songId] == SongOf(recs[i])
    {
      InsertSongsFirstWins(t, recs, i);
    }
  }

  /** The artist inserts of a file touch no table but `artists`, add exactly the records' artist_ids and keep stored artists. */
  lemma {:induction false} InsertArtistsFrame(t: Tables, recs: seq<SongRecord>)
    ensures var r := InsertArtists(t, recs);
            && r.artists.Keys == t.artists.Keys + ArtistIds(recs)
            && (forall k :: k in t.artists ==> r.artists[k] == t.artists[k])
            && r.songs == t.songs && r.users == t.users && r.time == t.time && r.songplays == t.songplays
    decreases |recs|
  {
    if recs != [] {
      InsertArtistsFrame(t, recs[..|recs| - 1]);
      ArtistIdsSnoc(recs);
    }
  }

  /** Within a file, the first record carrying a new artist_id is the one stored (first write wins). */
  lemma {:induction false} InsertArtistsFirstWins(t: Tables, recs: seq<SongRecord>, i: int)
    requires 0 <= i < |recs| && recs[i].artistId !in t.artists && FirstArtistAt(recs, i)
    ensures recs[i].artistId in InsertArtists(t, recs).artists
    ensures InsertArtists(t, recs).artists[recs[i].artistId] == ArtistOf(recs[i])
    decreases |recs|
  {
    var n := |recs| - 1;
    var prefix := recs[..n];
    var p := InsertArtists(t, prefix);
    assert InsertArtists(t, recs) == WithArtist(p, recs[n].artistId, ArtistOf(recs[n]));
    if i < n {
      assert prefix[i] == recs[i];
      assert FirstArtistAt(prefix, i) by {
        assert forall j :: 0 <= j < i ==> prefix[j] == recs[j];
      }
      InsertArtistsFirstWins(t, prefix, i);
    } else {
      InsertArtistsFrame(t, prefix);
      assert recs[n].artistId !in ArtistIds(prefix);
      assert recs[n].artistId !in p.artists;
    }
  }

  /**
   The artist inserts of a file add exactly the records' artist_ids, leave
   every artist already stored as it was, store for each new artist_id the
   record that first carries it, and touch no other table.
   */
  lemma InsertArtistsSpec(t: Tables, recs: seq<SongRecord>)
    ensures var r := InsertArtists(t, recs);
            && r.artists.Keys == t.artists.Keys + ArtistIds(recs)
            && (forall k :: k in t.artists ==> r.artists[k] == t.artists[k])
            && (forall i :: 0 <= i < |recs| && recs[i].artistId !in t.artists && FirstArtistAt(recs, i) ==>
                  r.artists[recs[i].artistId] == ArtistOf(recs[i]))
            && r.songs == t.songs && r.users == t.users && r.time == t.time && r.songplays == t.songplays
  {
    InsertArtistsFrame(t, recs);
    forall i | 0 <= i < |recs| && recs[i].artistId !in t.artists && FirstArtistAt(recs, i)
      ensures InsertArtists(t, recs).artists[recs[i].artistId] == ArtistOf(recs[i])
    {
      InsertArtistsFirstWins(t, recs, i);
    }
  }

  /**
   After a song file every record's song_id is a key of `songs` and its
   artist_id a key of `artists`; songs and artists stored before keep their
   rows, and users, time and songplays are untouched.
   */
  lemma SongFileSpec(t: Tables, recs: seq<SongRecord>)
    ensures var r := SongFileEffect(t, recs);
            && (forall i :: 0 <= i < |recs| ==> recs[i].songId in r.songs && recs[i].artistId in r.artists)
            && (forall k :: k in t.songs ==> k in r.songs && r.songs[k] == t.songs[k])
            && (forall k :: k in t.artists ==> k in r.artists && r.artists[k] == t.artists[k])
            && r.songs.Keys == t.songs.Keys + SongIds(recs)
            && r.artists.Keys == t.artists.Keys + ArtistIds(recs)
            && r.users == t.users && r.time == t.time && r.songplays == t.songplays
  {
    InsertSongsSpec(t, recs);
    InsertArtistsSpec(InsertSongs(t, recs), recs);
    assert forall i :: 0 <= i < |recs| ==> recs[i].songId in SongIds(recs) && recs[i].artistId in ArtistIds(recs);
  }

  /** Song inserts whose song_ids are all stored already change nothing. */
  lemma {:induction false} InsertSongsStored(t: Tables, recs: seq<SongRecord>)
    requires forall i :: 0 <= i < |recs| ==> recs[i].songId in t.songs
    ensures InsertSongs(t, recs) == t
    decreases |recs|
  {
    if recs != [] {
      InsertSongsStored(t, recs[..|recs| - 1]);
    }
  }

  /** Artist inserts whose artist_ids are all stored already change nothing. */
  lemma {:induction false} InsertArtistsStored(t: Tables, recs: seq<SongRecord>)
    requires forall i :: 0 <= i < |recs| ==> recs[i].artistId in t.artists
    ensures InsertArtists(t, recs) == t
    decreases |recs|
  {
    if recs != [] {
      InsertArtistsStored(t, recs[..|recs| - 1]);
    }
  }

  /** Loading the same song file twice is the same as loading it once. */
  lemma SongFileIdempotent(t: Tables, recs: seq<SongRecord>)
    ensures SongFileEffect(SongFileEffect(t, recs), recs) == SongFileEffect(t, recs)
  {
    var once := SongFileEffect(t, recs);
    SongFileSpec(t, recs);
    InsertSongsStored(once, recs);
    InsertArtistsStored(once, recs);
  }

  // ---------------------------------------------------------------------
  // Log files: the NextSong filter

  /**
   The kept rows are NextSong lines paired with their 0-based position, in
   strictly increasing position order, and every NextSong line is kept.
   */
  lemma {:induction false} NextSongRowsSpec(lines: seq<LogRecord>)
    ensures var kept := NextSongRows(lines);
            && (forall i :: 0 <= i < |kept| ==>
                  kept[i].0 < |lines| && kept[i].1 == lines[kept[i].0] && kept[i].1.page == NextSong)
            && (forall i, j :: 0 <= i < j < |kept| ==> kept[i].0 < kept[j].0)
            && (forall m :: 0 <= m < |lines| && lines[m].page == NextSong ==>
                  exists i :: 0 <= i < |kept| && kept[i].0 == m)
    decreases |lines|
  {
    if lines != [] {
      var n := |lines| - 1;
      var prefix := lines[..n];
      NextSongRowsSpec(prefix);
      var p := NextSongRows(prefix);
      assert forall m :: 0 <= m < n ==> prefix[m] == lines[m];
      if lines[n].page == NextSong {
        var kept := p + [(n, lines[n])];
        assert kept[|p|].0 == n;
        assert forall i :: 0 <= i < |p| ==> kept[i] == p[i];
      }
    }
  }

  /** A line that is not a NextSong line, appended to a file, changes nothing the file does. */
  lemma NonNextSongLine(t: Tables, lines: seq<LogRecord>, x: LogRecord)
    requires x.page != NextSong
    ensures NextSongRows(lines + [x]) == NextSongRows(lines)
    ensures LogFileEffect(t, lines + [x]) == LogFileEffect(t, lines)
  {
    assert (lines + [x])[..|lines|] == lines;
  }

  /** Lines without a NextSong line keep no row and leave the store as it was. */
  lemma {:induction false} NoNextSongRows(t: Tables, lines: seq<LogRecord>)
    requires forall i :: 0 <= i < |lines| ==> lines[i].page != NextSong
    ensures NextSongRows(lines) == []
    ensures LogFileEffect(t, lines) == (t, true)
    decreases |lines|
  {
    if lines != [] {
      NoNextSongRows(t, lines[..|lines| - 1]);
    }
  }

  /**
   A log file that has lines but no NextSong line completes and leaves the
   store as it was.
   */
  lemma NoNextSongLines(t: Tables, lines: seq<LogRecord>)
    requires lines != []
    requires forall i :: 0 <= i < |lines| ==> lines[i].page != NextSong
    ensures NextSongRows(lines) == []
    ensures FileEffect(t, LogFileFunc, LogData(lines)) == (t, true)
  {
    NoNextSongRows(t, lines);
  }

  /** An empty file fails under either function and leaves the store as it was. */
  lemma EmptyFileFails(t: Tables, func: FileFunc)
    ensures FileEffect(t, func, SongData([])) == (t, false)
    ensures FileEffect(t, func, LogData([])) == (t, false)
  {
  }

  // ---------------------------------------------------------------------
  // Log files: time rows

  /** The timestamps of the kept rows. */
  function Timestamps(kept: seq<(nat, LogRecord)>): (r: set<int>)
  {
    set i | 0 <= i < |kept| :: kept[i].1.ts
  }

  /** The timestamps of a non-empty sequence of rows: those of all but the last, and the last one's. */
  lemma TimestampsSnoc(kept: seq<(nat, LogRecord)>)
    requires kept != []
    ensures Timestamps(kept) == Timestamps(kept[..|kept| - 1]) + {kept[|kept| - 1].1.ts}
  {
    var prefix := kept[..|kept| - 1];
    assert forall i :: 0 <= i < |prefix| ==> prefix[i] == kept[i];
  }

  /**
   The time inserts add exactly the kept timestamps, leave stored time rows
   as they were (first write wins), and touch no other table.
   */
  lemma {:induction false} InsertTimesFrame(t: Tables, kept: seq<(nat, LogRecord)>)
    ensures var r := InsertTimes(t, kept);
            && r.time.Keys == t.time.Keys + Timestamps(kept)
            && (forall k :: k in t.time ==> r.time[k] == t.time[k])
            && r.songs == t.songs && r.artists == t.artists && r.users == t.users && r.songplays == t.songplays
    decreases |kept|
  {
    if kept != [] {
      var n := |kept| - 1;
      var prefix := kept[..n];
      InsertTimesFrame(t, prefix);
      TimestampsSnoc(kept);
    }
  }

  /** Every time row the inserts add is the calendar decomposition of its timestamp. */
  lemma {:induction false} InsertTimesRows(t: Tables, kept: seq<(nat, LogRecord)>, k: int)
    requires k in InsertTimes(t, kept).time && k !in t.time
    ensures InsertTimes(t, kept).time[k] == Calendar.Decompose(k)
    decreases |kept|
  {
    var n := |kept| - 1;
    var prefix := kept[..n];
    var p := InsertTimes(t, prefix);
    var ts := kept[n].1.ts;
    assert InsertTimes(t, kept) == WithTime(p, ts, Calendar.Decompose(ts));
    if k in p.time {
      InsertTimesRows(t, prefix, k);
    }
  }

  /**
   The time inserts add exactly the kept timestamps, leave stored time rows
   as they were (first write wins), give every new timestamp its calendar
   decomposition, and touch no other table.
   */
  lemma InsertTimesSpec(t: Tables, kept: seq<(nat, LogRecord)>)
    ensures var r := InsertTimes(t, kept);
            && r.time.Keys == t.time.Keys + Timestamps(kept)
            && (forall k :: k in t.time ==> r.time[k] == t.time[k])
            && (forall k :: k in r.time && k !in t.time ==> r.time[k] == Calendar.Decompose(k))
            && r.songs == t.songs && r.artists == t.artists && r.users == t.users && r.songplays == t.songplays
  {
    InsertTimesFrame(t, kept);
    forall k | k in InsertTimes(t, kept).time && k !in t.time
      ensures InsertTimes(t, kept).time[k] == Calendar.Decompose(k)
    {
      InsertTimesRows(t, kept, k);
    }
  }

  /** A time row: hour 0..23, a valid date, ISO week 1..53, weekday 0..6 (Monday = 0). */
  predicate ValidTimeRow(row: Calendar.TimeRow)
  {
    && 0 <= row.hour <= 23 && 1 <= row.month <= 12 && 1 <= row.day <= Calendar.DaysInMonth(row.year, row.month)
    && 1 <= row.week <= 53 && 0 <= row.weekday <= 6
  }

  // ---------------------------------------------------------------------
  // Log files: users

  /** The user_ids of the kept rows. */
  function UserIds(kept: seq<(nat, LogRecord)>): (r: set<int>)
  {
    set i | 0 <= i < |kept| :: kept[i].1.userId
  }

  /** The user_ids of a non-empty sequence of rows: those of all but the last, and the last one's. */
  lemma UserIdsSnoc(kept: seq<(nat, LogRecord)>)
    requires kept != []
    ensures UserIds(kept) == UserIds(kept[..|kept| - 1]) + {kept[|kept| - 1].1.userId}
  {
    var prefix := kept[..|kept| - 1];
    assert forall i :: 0 <= i < |prefix| ==> prefix[i] == kept[i];
  }

  /** Row `i` is the last kept row of its user. */
  predicate LastOfUser(kept: seq<(nat, LogRecord)>, i: int)
    requires 0 <= i < |kept|
  {
    forall j :: i < j < |kept| ==> kept[j].1.userId != kept[i].1.userId
  }

  /** Row `i` is the first kept row of its user. */
  predicate FirstOfUser(kept: seq<(nat, LogRecord)>, i: int)
    requires 0 <= i < |kept|
  {
    forall j :: 0 <= j < i ==> kept[j].1.userId != kept[i].1.userId
  }

  /** The user upserts add exactly the kept user_ids and touch no other table. */
  lemma {:induction false} UpsertUsersFrame(t: Tables, kept: seq<(nat, LogRecord)>)
    ensures var r := UpsertUsers(t, kept);
            && r.users.Keys == t.users.Keys + UserIds(kept)
            && r.songs == t.songs && r.artists == t.artists && r.time == t.time && r.songplays == t.songplays
    decreases |kept|
  {
    if kept != [] {
      var n := |kept| - 1;
      var prefix := kept[..n];
      UpsertUsersFrame(t, prefix);
      UserIdsSnoc(kept);
    }
  }

  /** The upserts never change a stored user's names or gender. */
  lemma {:induction false} UpsertUsersKeepIdentity(t: Tables, kept: seq<(nat, LogRecord)>, u: int)
    requires u in t.users
    ensures u in UpsertUsers(t, kept).users && SameIdentity(UpsertUsers(t, kept).users[u], t.users[u])
    decreases |kept|
  {
    if kept != [] {
      UpsertUsersKeepIdentity(t, kept[..|kept| - 1], u);
    }
  }

  /** A stored user without a kept row is left as it was. */
  lemma {:induction false} UpsertUsersUntouched(t: Tables, kept: seq<(nat, LogRecord)>, u: int)
    requires u in t.users && forall i :: 0 <= i < |kept| ==> kept[i].1.userId != u
    ensures u in UpsertUsers(t, kept).users && UpsertUsers(t, kept).users[u] == t.users[u]
    decreases |kept|
  {
    if kept != [] {
      UpsertUsersUntouched(t, kept[..|kept| - 1], u);
    }
  }

  /** An upsert never changes the names or gender of a stored user. */
  lemma WithUserKeepsIdentity(t: Tables, userId: int, row: User, u: int)
    requires u in t.users
    ensures u in WithUser(t, userId, row).users && SameIdentity(WithUser(t, userId, row).users[u], t.users[u])
  {
  }

  /** A user neither stored nor in any kept row is still absent after the upserts. */
  lemma {:induction false} UpsertUsersAbsent(t: Tables, kept: seq<(nat, LogRecord)>, u: int)
    requires u !in t.users && forall i :: 0 <= i < |kept| ==> kept[i].1.userId != u
    ensures u !in UpsertUsers(t, kept).users
    decreases |kept|
  {
    if kept != [] {
      UpsertUsersAbsent(t, kept[..|kept| - 1], u);
    }
  }

  /** A user's level is the level of the user's last kept row (last write wins). */
  lemma {:induction false} UpsertUsersLastLevel(t: Tables, kept: seq<(nat, LogRecord)>, i: int)
    requires 0 <= i < |kept| && LastOfUser(kept, i)
    ensures kept[i].1.userId in UpsertUsers(t, kept).users
    ensures UpsertUsers(t, kept).users[kept[i].1.userId].level == kept[i].1.level
    decreases |kept|
  {
    if i < |kept| - 1 {
      var prefix := kept[..|kept| - 1];
      assert prefix[i] == kept[i];
      UpsertUsersLastLevel(t, prefix, i);
    }
  }

  /** A user not stored before takes names and gender from the user's first kept row. */
  lemma {:induction false} UpsertUsersFirstIdentity(t: Tables, kept: seq<(nat, LogRecord)>, i: int)
    requires 0 <= i < |kept| && kept[i].1.userId !in t.users && FirstOfUser(kept, i)
    ensures kept[i].1.userId in UpsertUsers(t, kept).users
    ensures SameIdentity(UpsertUsers(t, kept).users[kept[i].1.userId], UserOf(kept[i].1))
    decreases |kept|
  {
    var n := |kept| - 1;
    var prefix := kept[..n];
    if i < n {
      assert forall j :: 0 <= j <= i ==> prefix[j] == kept[j];
      UpsertUsersFirstIdentity(t, prefix, i);
      WithUserKeepsIdentity(UpsertUsers(t, prefix), kept[n].1.userId, UserOf(kept[n].1), kept[i].1.userId);
    } else {
      assert forall j :: 0 <= j < n ==> prefix[j] == kept[j];
      UpsertUsersAbsent(t, prefix, kept[n].1.userId);
    }
  }

  /**
   `users` after the upserts of a log file: exactly the stored and the kept
   user_ids; a stored user keeps names and gender, a new user has those of
   the first row, and every kept user has the level of its last row.
   */
  lemma UpsertUsersSpec(t: Tables, kept: seq<(nat, LogRecord)>)
    ensures var r := UpsertUsers(t, kept);
            && r.users.Keys == t.users.Keys + UserIds(kept)
            && (forall u :: u in t.users ==> SameIdentity(r.users[u], t.users[u]))
            && (forall i :: 0 <= i < |kept| && kept[i].1.userId !in t.users && FirstOfUser(kept, i) ==>
                  SameIdentity(r.users[kept[i].1.userId], UserOf(kept[i].1)))
            && (forall i :: 0 <= i < |kept| && LastOfUser(kept, i) ==> r.users[kept[i].1.userId].level == kept[i].1.level)
            && (forall u :: u in t.users && u !in UserIds(kept) ==> r.users[u] == t.users[u])
  {
    UpsertUsersFrame(t, kept);
    forall u | u in t.users
      ensures SameIdentity(UpsertUsers(t, kept).users[u], t.users[u])
    {
      UpsertUsersKeepIdentity(t, kept, u);
    }
    forall u | u in t.users && u !in UserIds(kept)
      ensures UpsertUsers(t, kept).users[u] == t.users[u]
    {
      assert forall i :: 0 <= i < |kept| ==> kept[i].1.userId in UserIds(kept);
      UpsertUsersUntouched(t, kept, u);
    }
    forall i | 0 <= i < |kept| && kept[i].1.userId !in t.users && FirstOfUser(kept, i)
      ensures SameIdentity(UpsertUsers(t, kept).users[kept[i].1.userId], UserOf(kept[i].1))
    {
      UpsertUsersFirstIdentity(t, kept, i);
    }
    forall i | 0 <= i < |kept| && LastOfUser(kept, i)
      ensures UpsertUsers(t, kept).users[kept[i].1.userId].level == kept[i].1.level
    {
      UpsertUsersLastLevel(t, kept, i);
    }
  }

  // ---------------------------------------------------------------------
  // Log files: the song lookup and the songplays

  /**
   The songplay row of a log line carries the line's start time, user,
   level, session, location and agent; its song_id and artist_id are both
   null exactly when no song matches title, artist name and duration, and
   otherwise come from one matching song and that song's artist.
   */
  lemma PlayForSpec(t: Tables, r: LogRecord)
    ensures var p := PlayFor(t, r);
            && p.startTime == r.ts && p.userId == r.userId && p.level == r.level
            && p.sessionId == r.sessionId && p.location == r.location && p.userAgent == r.userAgent
            && (p.songId.Some? <==> p.artistId.Some?)
            && (p.songId.None? <==> forall k :: k in t.songs ==> !IsMatch(t.songs, t.artists, k, r.song, r.artist, r.length))
            && (p.songId.Some? ==>
                  && IsMatch(t.songs, t.artists, p.songId.value, r.song, r.artist, r.length)
                  && p.artistId.value == t.songs[p.songId.value].artistId && p.artistId.value in t.artists)
  {
    SongSelectSpec(t.songs, t.artists, r.song, r.artist, r.length);
  }

  /**
   The songplay inserts touch no table but `songplays`, and every songplay
   stored before keeps its row: a play whose row index is already a
   songplay_id is dropped.
   */
  lemma {:induction false} SongplaysFrame(t: Tables, kept: seq<(nat, LogRecord)>)
    ensures var r := InsertSongplays(t, kept).0;
            && r.songs == t.songs && r.artists == t.artists && r.users == t.users && r.time == t.time
            && (forall k :: k in t.songplays ==> k in r.songplays && r.songplays[k] == t.songplays[k])
    decreases |kept|
  {
    if kept != [] {
      SongplaysFrame(t, kept[..|kept| - 1]);
    }
  }

  /** Every songplay the inserts add is keyed by a kept row's index and is that row's play. */
  lemma {:induction false} SongplaysNewRow(t: Tables, kept: seq<(nat, LogRecord)>, k: int) returns (i: nat)
    requires k in InsertSongplays(t, kept).0.songplays && k !in t.songplays
    ensures i < |kept| && kept[i].0 == k && InsertSongplays(t, kept).0.songplays[k] == PlayFor(t, kept[i].1)
    decreases |kept|
  {
    var n := |kept| - 1;
    var prefix := kept[..n];
    var prev := InsertSongplays(t, prefix);
    SongplaysFrame(t, prefix);
    if k in prev.0.songplays {
      i := SongplaysNewRow(t, prefix, k);
      assert prefix[i] == kept[i];
    } else {
      i := n;
    }
  }

  /** When every insert succeeded, every kept row's index is a songplay_id. */
  lemma {:induction false} SongplaysComplete(t: Tables, kept: seq<(nat, LogRecord)>, i: int)
    requires 0 <= i < |kept| && InsertSongplays(t, kept).1
    ensures kept[i].0 in InsertSongplays(t, kept).0.songplays
    decreases |kept|
  {
    var n := |kept| - 1;
    var prefix := kept[..n];
    if i < n {
      assert prefix[i] == kept[i];
      SongplaysComplete(t, prefix, i);
    }
  }

  /**
   When an insert failed, some kept row's index is not a songplay_id and its
   play repeats the (start_time, user_id, session_id) of a stored songplay.
   */
  lemma {:induction false} SongplaysFailure(t: Tables, kept: seq<(nat, LogRecord)>) returns (i: nat)
    requires !InsertSongplays(t, kept).1
    ensures i < |kept| && kept[i].0 !in InsertSongplays(t, kept).0.songplays
    ensures SessionTaken(InsertSongplays(t, kept).0.songplays, PlayFor(t, kept[i].1))
    decreases |kept|
  {
    var n := |kept| - 1;
    var prefix := kept[..n];
    var prev := InsertSongplays(t, prefix);
    if !prev.1 {
      i := SongplaysFailure(t, prefix);
      assert prefix[i] == kept[i];
    } else {
      SongplaysFrame(t, prefix);
      i := n;
    }
  }

  /**
   `songplays` after the inserts of a log file: stored songplays keep their
   rows, every new songplay is the play of a kept row keyed by its index,
   success means every kept index is present, and failure names a kept row
   whose play repeats a stored (start_time, user_id, session_id).
   */
  lemma InsertSongplaysSpec(t: Tables, kept: seq<(nat, LogRecord)>)
    ensures var (r, ok) := InsertSongplays(t, kept);
            && r.songs == t.songs && r.artists == t.artists && r.users == t.users && r.time == t.time
            && (forall k :: k in t.songplays ==> k in r.songplays && r.songplays[k] == t.songplays[k])
            && (forall k :: k in r.songplays && k !in t.songplays ==>
                  exists i :: 0 <= i < |kept| && kept[i].0 == k && r.songplays[k] == PlayFor(t, kept[i].1))
            && (ok ==> forall i :: 0 <= i < |kept| ==> kept[i].0 in r.songplays)
            && (!ok ==> exists i :: 0 <= i < |kept| && kept[i].0 !in r.songplays && SessionTaken(r.songplays, PlayFor(t, kept[i].1)))
  {
    var r := InsertSongplays(t, kept).0;
    SongplaysFrame(t, kept);
    forall k | k in r.songplays && k !in t.songplays
      ensures exists i :: 0 <= i < |kept| && kept[i].0 == k && r.songplays[k] == PlayFor(t, kept[i].1)
    {
      var i := SongplaysNewRow(t, kept, k);
    }
    if InsertSongplays(t, kept).1 {
      forall i | 0 <= i < |kept|
        ensures kept[i].0 in r.songplays
      {
        SongplaysComplete(t, kept, i);
      }
    } else {
      var i := SongplaysFailure(t, kept);
    }
  }

  // ---------------------------------------------------------------------
  // Referential integrity and what a run keeps

  /**
   A songplay whose start_time is a key of `time`, whose user_id is a key
   of `users`, and whose song_id and artist_id are both null or name a
   stored song and that song's stored artist.
   */
  predicate PlayResolved(t: Tables, p: Songplay)
  {
    && p.startTime in t.time && p.userId in t.users
    && (p.songId.Some? <==> p.artistId.Some?)
    && (p.songId.Some? ==>
          p.songId.value in t.songs && p.artistId.value in t.artists && t.songs[p.songId.value].artistId == p.artistId.value)
  }

  /**
   The store's integrity: every time row is the decomposition of its
   timestamp and every songplay is resolved.
   */
  predicate Consistent(t: Tables)
  {
    && (forall k :: k in t.time ==> t.time[k] == Calendar.Decompose(k))
    && (forall k :: k in t.songplays ==> PlayResolved(t, t.songplays[k]))
  }

  /**
   `u` extends `t`: no row is deleted, and no stored song, artist, time row
   or songplay changes; a stored user keeps names and gender (only the
   level may change).
   */
  predicate Grows(t: Tables, u: Tables)
  {
    && (forall k :: k in t.songs ==> k in u.songs && u.songs[k] == t.songs[k])
    && (forall k :: k in t.artists ==> k in u.artists && u.artists[k] == t.artists[k])
    && (forall k :: k in t.users ==> k in u.users && SameIdentity(u.users[k], t.users[k]))
    && (forall k :: k in t.time ==> k in u.time && u.time[k] == t.time[k])
    && (forall k :: k in t.songplays ==> k in u.songplays && u.songplays[k] == t.songplays[k])
  }

  /** Resolved songplays stay resolved as the store grows. */
  lemma PlayResolvedGrows(t: Tables, u: Tables, p: Songplay)
    requires Grows(t, u) && PlayResolved(t, p)
    ensures PlayResolved(u, p)
  {
  }

  /** A song file only grows the store, and leaves users, time and songplays as they were. */
  lemma SongFileGrows(t: Tables, recs: seq<SongRecord>)
    ensures var u := SongFileEffect(t, recs);
            Grows(t, u) && u.users == t.users && u.time == t.time && u.songplays == t.songplays
  {
    InsertSongsFrame(t, recs);
    InsertArtistsFrame(InsertSongs(t, recs), recs);
  }

  /** A store that grows without new time rows or songplays stays consistent. */
  lemma ConsistentGrows(t: Tables, u: Tables)
    requires Consistent(t) && Grows(t, u) && u.time == t.time && u.songplays == t.songplays
    ensures Consistent(u)
  {
    forall k | k in u.songplays
      ensures PlayResolved(u, u.songplays[k])
    {
      PlayResolvedGrows(t, u, t.songplays[k]);
    }
  }

  /** A song file keeps the store consistent and only grows it. */
  lemma SongFileConsistent(t: Tables, recs: seq<SongRecord>)
    requires Consistent(t)
    ensures Consistent(SongFileEffect(t, recs)) && Grows(t, SongFileEffect(t, recs))
  {
    SongFileGrows(t, recs);
    ConsistentGrows(t, SongFileEffect(t, recs));
  }

  /** The time inserts and user upserts of a log file keep the store consistent and only grow it. */
  lemma TimesAndUsersConsistent(t: Tables, kept: seq<(nat, LogRecord)>)
    requires Consistent(t)
    ensures var b := UpsertUsers(InsertTimes(t, kept), kept);
            && Consistent(b) && Grows(t, b)
            && Timestamps(kept) <= b.time.Keys && UserIds(kept) <= b.users.Keys
  {
    var a := InsertTimes(t, kept);
    var b := UpsertUsers(a, kept);
    InsertTimesSpec(t, kept);
    UpsertUsersFrame(a, kept);
    forall u | u in a.users
      ensures SameIdentity(b.users[u], a.users[u])
    {
      UpsertUsersKeepIdentity(a, kept, u);
    }
    assert Grows(t, b);
    forall k | k in b.songplays
      ensures PlayResolved(b, b.songplays[k])
    {
      PlayResolvedGrows(t, b, t.songplays[k]);
    }
  }

  /**
   The songplay inserts keep a store consistent when the kept rows'
   timestamps and users are stored, and only grow it.
   */
  lemma SongplaysConsistent(b: Tables, kept: seq<(nat, LogRecord)>)
    requires Consistent(b) && Timestamps(kept) <= b.time.Keys && UserIds(kept) <= b.users.Keys
    ensures Consistent(InsertSongplays(b, kept).0) && Grows(b, InsertSongplays(b, kept).0)
  {
    var c := InsertSongplays(b, kept).0;
    SongplaysFrame(b, kept);
    assert Grows(b, c);
    forall k | k in c.songplays
      ensures PlayResolved(c, c.songplays[k])
    {
      if k in b.songplays {
        PlayResolvedGrows(b, c, b.songplays[k]);
      } else {
        var i := SongplaysNewRow(b, kept, k);
        PlayForSpec(b, kept[i].1);
        assert kept[i].1.ts in Timestamps(kept) && kept[i].1.userId in UserIds(kept);
      }
    }
  }

  /**
   A log file, whether it completes or stops at a failed songplay insert,
   keeps the store consistent and only grows it: every songplay's start
   time and user are stored, and its song and artist are stored or both null.
   */
  lemma LogFileConsistent(t: Tables, lines: seq<LogRecord>)
    requires Consistent(t)
    ensures Consistent(LogFileEffect(t, lines).0) && Grows(t, LogFileEffect(t, lines).0)
  {
    var kept := NextSongRows(lines);
    var b := UpsertUsers(InsertTimes(t, kept), kept);
    TimesAndUsersConsistent(t, kept);
    SongplaysConsistent(b, kept);
    GrowsTransitive(t, b, InsertSongplays(b, kept).0);
  }

  /** Growth composes. */
  lemma GrowsTransitive(t: Tables, u: Tables, v: Tables)
    requires Grows(t, u) && Grows(u, v)
    ensures Grows(t, v)
  {
  }

  /** The per-file function keeps the store consistent and only grows it, success or failure. */
  lemma FileConsistent(t: Tables, func: FileFunc, file: DataFile)
    requires Consistent(t)
    ensures Consistent(FileEffect(t, func, file).0) && Grows(t, FileEffect(t, func, file).0)
  {
    match func
    case SongFileFunc =>
      if file.SongData? {
        SongFileConsistent(t, file.records);
      }
    case LogFileFunc =>
      if file.LogData? {
        LogFileConsistent(t, file.lines);
      }
  }

  /**
   A run of `process_data` from consistent live and committed contents
   leaves both consistent, and the live contents only grow.
   */
  lemma {:induction false} RunConsistent(t: Tables, c: Tables, files: seq<DataFile>, func: FileFunc)
    requires Consistent(t) && Consistent(c)
    ensures var r := RunEffect(t, c, files, func);
            Consistent(r.live) && Consistent(r.committed) && Grows(t, r.live)
    decreases |files|
  {
    if files != [] {
      var n := |files| - 1;
      var prev := RunEffect(t, c, files[..n], func);
      RunConsistent(t, c, files[..n], func);
      if prev.done == n {
        FileConsistent(prev.live, func, files[n]);
        GrowsTransitive(t, prev.live, FileEffect(prev.live, func, files[n]).0);
      }
    }
  }

  /**
   The whole load from an empty database, song files first and then log
   files, leaves both the live and the committed contents consistent.
   */
  lemma LoadConsistent(songFiles: seq<DataFile>, logFiles: seq<DataFile>)
    ensures var s := RunEffect(EmptyTables, EmptyTables, songFiles, SongFileFunc);
            var l := RunEffect(s.live, s.committed, logFiles, LogFileFunc);
            Consistent(s.live) && Consistent(s.committed) && Consistent(l.live) && Consistent(l.committed)
  {
    var s := RunEffect(EmptyTables, EmptyTables, songFiles, SongFileFunc);
    RunConsistent(EmptyTables, EmptyTables, songFiles, SongFileFunc);
    RunConsistent(s.live, s.committed, logFiles, LogFileFunc);
  }

  /** Every time row of a consistent store has hour 0..23, a valid date, ISO week 1..53 and weekday 0..6. */
  lemma TimeRowsValid(t: Tables)
    requires Consistent(t)
    ensures forall k :: k in t.time ==> ValidTimeRow(t.time[k])
  {
    forall k | k in t.time
      ensures ValidTimeRow(t.time[k])
    {
      Calendar.DecomposeSpec(k);
    }
  }

  /** A run that completed `m` files completed the first `m` of them as a run of its own. */
  lemma {:induction false} RunPrefixDone(t: Tables, c: Tables, files: seq<DataFile>, func: FileFunc, m: int)
    requires 0 <= m <= RunEffect(t, c, files, func).done
    ensures RunEffect(t, c, files[..m], func).done == m
    decreases |files|
  {
    if m == |files| {
      assert files[..m] == files;
    } else {
      var n := |files| - 1;
      var prefix := files[..n];
      assert m <= RunEffect(t, c, prefix, func).done;
      RunPrefixDone(t, c, prefix, func, m);
      assert prefix[..m] == files[..m];
    }
  }

  /** A run over `k + 1` files that completed them all ended with a file that succeeded. */
  lemma LastFileSucceeded(t: Tables, c: Tables, files: seq<DataFile>, func: FileFunc, k: int)
    requires 0 <= k < |files| && RunEffect(t, c, files[..k + 1], func).done == k + 1
    ensures FileEffect(RunEffect(t, c, files[..k], func).live, func, files[k]).1
  {
    var s := files[..k + 1];
    assert s[..k] == files[..k] && s[k] == files[k];
  }

  /** Every file a run completed succeeded, applied to the contents the files before it left. */
  lemma RunCompleted(t: Tables, c: Tables, files: seq<DataFile>, func: FileFunc, k: int)
    requires 0 <= k < RunEffect(t, c, files, func).done
    ensures RunEffect(t, c, files[..k], func).done == k
    ensures FileEffect(RunEffect(t, c, files[..k], func).live, func, files[k]).1
  {
    RunPrefixDone(t, c, files, func, k);
    RunPrefixDone(t, c, files, func, k + 1);
    LastFileSucceeded(t, c, files, func, k);
  }

  /** A run that did not complete every file stopped at the first file that failed. */
  lemma {:induction false} RunFailure(t: Tables, c: Tables, files: seq<DataFile>, func: FileFunc)
    requires RunEffect(t, c, files, func).done < |files|
    ensures var d := RunEffect(t, c, files, func).done;
            && RunEffect(t, c, files[..d], func).done == d
            && !FileEffect(RunEffect(t, c, files[..d], func).live, func, files[d]).1
    decreases |files|
  {
    var n := |files| - 1;
    var prefix := files[..n];
    var prev := RunEffect(t, c, prefix, func);
    if prev.done < n {
      RunFailure(t, c, prefix, func);
      assert prefix[..prev.done] == files[..prev.done];
      assert prefix[prev.done] == files[prev.done];
    }
  }

  /**
   The committed contents of a run are the starting ones when no file
   completed, and otherwise the live contents after the last completed file.
   */
  lemma {:induction false} RunCommitted(t: Tables, c: Tables, files: seq<DataFile>, func: FileFunc)
    ensures var r := RunEffect(t, c, files, func);
            && (r.done == 0 ==> r.committed == c)
            && (r.done > 0 ==> r.committed == RunEffect(t, c, files[..r.done], func).live)
    decreases |files|
  {
    if files != [] {
      var n := |files| - 1;
      var prefix := files[..n];
      var prev := RunEffect(t, c, prefix, func);
      RunCommitted(t, c, prefix, func);
      assert prefix[..prev.done] == files[..prev.done];
      assert files[..n + 1] == files;
    }
  }

  // ---------------------------------------------------------------------
  // Reloading a log file

  /** Time inserts whose timestamps are all stored already change nothing. */
  lemma {:induction false} InsertTimesStored(t: Tables, kept: seq<(nat, LogRecord)>)
    requires forall i :: 0 <= i < |kept| ==> kept[i].1.ts in t.time
    ensures InsertTimes(t, kept) == t
    decreases |kept|
  {
    if kept != [] {
      InsertTimesStored(t, kept[..|kept| - 1]);
    }
  }

  /** Songplay inserts whose row indices are all songplay_ids already change nothing and succeed. */
  lemma {:induction false} SongplaysStored(t: Tables, kept: seq<(nat, LogRecord)>)
    requires forall i :: 0 <= i < |kept| ==> kept[i].0 in t.songplays
    ensures InsertSongplays(t, kept) == (t, true)
    decreases |kept|
  {
    if kept != [] {
      SongplaysStored(t, kept[..|kept| - 1]);
    }
  }

  /** A kept user has a last kept row. */
  lemma {:induction false} LastRowOfUser(kept: seq<(nat, LogRecord)>, u: int) returns (i: int)
    requires u in UserIds(kept)
    ensures 0 <= i < |kept| && kept[i].1.userId == u && LastOfUser(kept, i)
    decreases |kept|
  {
    var n := |kept| - 1;
    if kept[n].1.userId == u {
      i := n;
    } else {
      UserIdsSnoc(kept);
      var prefix := kept[..n];
      i := LastRowOfUser(prefix, u);
      assert prefix[i] == kept[i];
    }
  }

  /**
   User upserts that find every kept user stored with the level of the
   user's last kept row change nothing.
   */
  lemma UpsertUsersStored(t: Tables, kept: seq<(nat, LogRecord)>)
    requires UserIds(kept) <= t.users.Keys
    requires forall i :: 0 <= i < |kept| && LastOfUser(kept, i) ==> t.users[kept[i].1.userId].level == kept[i].1.level
    ensures UpsertUsers(t, kept) == t
  {
    var r := UpsertUsers(t, kept);
    UpsertUsersFrame(t, kept);
    forall u | u in t.users
      ensures r.users[u] == t.users[u]
    {
      if u in UserIds(kept) {
        var i := LastRowOfUser(kept, u);
        UpsertUsersLastLevel(t, kept, i);
        UpsertUsersKeepIdentity(t, kept, u);
      } else {
        assert forall i :: 0 <= i < |kept| ==> kept[i].1.userId in UserIds(kept);
        UpsertUsersUntouched(t, kept, u);
      }
    }
    assert r.users == t.users;
  }

  /**
   Loading a log file again after it was loaded successfully changes
   nothing: its timestamps and users are stored, and every row index is
   already a songplay_id, so each songplay insert is dropped.
   */
  lemma LogFileReload(t: Tables, lines: seq<LogRecord>)
    requires LogFileEffect(t, lines).1
    ensures LogFileEffect(LogFileEffect(t, lines).0, lines) == LogFileEffect(t, lines)
  {
    var kept := NextSongRows(lines);
    var a := InsertTimes(t, kept);
    var b := UpsertUsers(a, kept);
    var u := InsertSongplays(b, kept).0;
    InsertTimesFrame(t, kept);
    UpsertUsersFrame(a, kept);
    SongplaysFrame(b, kept);
    assert forall i :: 0 <= i < |kept| ==> kept[i].1.ts in Timestamps(kept);
    InsertTimesStored(u, kept);
    forall i | 0 <= i < |kept| && LastOfUser(kept, i)
      ensures u.users[kept[i].1.userId].level == kept[i].1.level
    {
      UpsertUsersLastLevel(a, kept, i);
    }
    UpsertUsersStored(u, kept);
    forall i | 0 <= i < |kept|
      ensures kept[i].0 in u.songplays
    {
      SongplaysComplete(b, kept, i);
    }
    SongplaysStored(u, kept);
  }

  /**
   A log file keeps the play stored under every songplay_id already in use,
   so a NextSong line whose row index an earlier file already used as a
   songplay_id adds no songplay.
   */
  lemma LaterPlayDropped(t: Tables, lines: seq<LogRecord>, m: int)
    requires m in t.songplays
    ensures m in LogFileEffect(t, lines).0.songplays
    ensures LogFileEffect(t, lines).0.songplays[m] == t.songplays[m]
  {
    var kept := NextSongRows(lines);
    var a := InsertTimes(t, kept);
    var b := UpsertUsers(a, kept);
    InsertTimesFrame(t, kept);
    UpsertUsersFrame(a, kept);
    SongplaysFrame(b, kept);
  }
}
