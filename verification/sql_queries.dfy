/**
 The five-table store and the statements that write and read it: one INSERT
 per table with that table's ON CONFLICT policy, and the song lookup that
 joins songs to artists.  A table is a map from its primary key to the rest
 of its row.  `Tables` is the store as a value, the functions With* say what
 one statement does to it, and class `Store` executes the statements in place.
 */
module SqlQueries {
  import opened LexOrder
  import Calendar

  datatype Option<T> = None | Some(value: T)

  /** A double- or single-precision column value; the model only compares such values for equality. */
  datatype Float = Float(bits: int)

  /** songs(song_id PRIMARY KEY, title, artist_id, year, duration) */
  datatype Song = Song(title: string, artistId: string, year: int, duration: Float)

  /** artists(artist_id PRIMARY KEY, name, location, latitude, longitude) */
  datatype Artist = Artist(name: string, location: string, latitude: Float, longitude: Float)

  /** users(user_id PRIMARY KEY, first_name, last_name, gender, level) */
  datatype User = User(firstName: string, lastName: string, gender: string, level: string)

  /**
   songplays(songplay_id PRIMARY KEY, start_time, user_id, level, song_id,
   artist_id, session_id, location, user_agent), UNIQUE (start_time, user_id,
   session_id).  start_time is the epoch-millisecond timestamp; song_id and
   artist_id are nullable.
   */
  datatype Songplay = Songplay(startTime: int, userId: int, level: string,
                               songId: Option<string>, artistId: Option<string>,
                               sessionId: int, location: string, userAgent: string)

  /** The whole store; `time` maps start_time to its derived columns. */
  datatype Tables = Tables(songs: map<string, Song>,
                           artists: map<string, Artist>,
                           users: map<int, User>,
                           time: map<int, Calendar.TimeRow>,
                           songplays: map<int, Songplay>)

  const EmptyTables := Tables(map[], map[], map[], map[], map[])

  /** `song_table_insert`: ON CONFLICT (song_id) DO NOTHING. */
  function WithSong(t: Tables, songId: string, row: Song): (r: Tables)
    ensures r.songs.Keys == t.songs.Keys + {songId}
    ensures forall k :: k in t.songs ==> r.songs[k] == t.songs[k]
    ensures songId !in t.songs ==> r.songs[songId] == row
    ensures r.artists == t.artists && r.users == t.users && r.time == t.time && r.songplays == t.songplays
  {
    if songId in t.songs then t else t.(songs := t.songs[songId := row])
  }

  /** `artist_table_insert`: ON CONFLICT (artist_id) DO NOTHING. */
  function WithArtist(t: Tables, artistId: string, row: Artist): (r: Tables)
    ensures r.artists.Keys == t.artists.Keys + {artistId}
    ensures forall k :: k in t.artists ==> r.artists[k] == t.artists[k]
    ensures artistId !in t.artists ==> r.artists[artistId] == row
    ensures r.songs == t.songs && r.users == t.users && r.time == t.time && r.songplays == t.songplays
  {
    if artistId in t.artists then t else t.(artists := t.artists[artistId := row])
  }

  /** `time_table_insert`: ON CONFLICT (start_time) DO NOTHING. */
  function WithTime(t: Tables, startTime: int, row: Calendar.TimeRow): (r: Tables)
    ensures r.time.Keys == t.time.Keys + {startTime}
    ensures forall k :: k in t.time ==> r.time[k] == t.time[k]
    ensures startTime !in t.time ==> r.time[startTime] == row
    ensures r.songs == t.songs && r.artists == t.artists && r.users == t.users && r.songplays == t.songplays
  {
    if startTime in t.time then t else t.(time := t.time[startTime := row])
  }

  /**
   `user_table_insert`: ON CONFLICT (user_id) DO UPDATE SET level = EXCLUDED.level.
   A new user gets the whole row; an existing one keeps its names and gender
   and takes the new level.
   */
  function WithUser(t: Tables, userId: int, row: User): (r: Tables)
    ensures r.users.Keys == t.users.Keys + {userId}
    ensures forall k :: k in t.users && k != userId ==> r.users[k] == t.users[k]
    ensures userId !in t.users ==> r.users[userId] == row
    ensures userId in t.users ==> r.users[userId] == t.users[userId].(level := row.level)
    ensures r.songs == t.songs && r.artists == t.artists && r.time == t.time && r.songplays == t.songplays
  {
    if userId in t.users then t.(users := t.users[userId := t.users[userId].(level := row.level)])
    else t.(users := t.users[userId := row])
  }

  /** Some row of `plays` already holds the (start_time, user_id, session_id) of `p`. */
  predicate SessionTaken(plays: map<int, Songplay>, p: Songplay)
  {
    exists k :: k in plays && plays[k].startTime == p.startTime && plays[k].userId == p.userId
                && plays[k].sessionId == p.sessionId
  }

  /**
   `songplay_table_insert`: ON CONFLICT (songplay_id) DO NOTHING.  The
   conflict clause names only the primary key, so a new songplay_id whose
   (start_time, user_id, session_id) is already present violates the UNIQUE
   constraint: the statement fails (None) and changes nothing.
   */
  function WithSongplay(t: Tables, songplayId: int, row: Songplay): (r: Option<Tables>)
    ensures songplayId in t.songplays ==> r == Some(t)
    ensures r.None? <==> songplayId !in t.songplays && SessionTaken(t.songplays, row)
    ensures r.Some? && songplayId !in t.songplays ==> r.value.songplays == t.songplays[songplayId := row]
    ensures r.Some? ==> r.value.songs == t.songs && r.value.artists == t.artists
                        && r.value.users == t.users && r.value.time == t.time
  {
    if songplayId in t.songplays then Some(t)
    else if SessionTaken(t.songplays, row) then None
    else Some(t.(songplays := t.songplays[songplayId := row]))
  }

  /** Song `songId` is present, has this title and duration, and its artist is present with this name. */
  predicate IsMatch(songs: map<string, Song>, artists: map<string, Artist>, songId: string,
                    title: string, artistName: string, duration: Float)
  {
    && songId in songs
    && songs[songId].title == title
    && songs[songId].duration == duration
    && songs[songId].artistId in artists
    && artists[songs[songId].artistId].name == artistName
  }

  /**
   `song_select` followed by fetchone: songs JOIN artists ON artist_id, exact
   match on title, artist name and duration.  The query has no ORDER BY, so
   the row fetchone returns is the store's choice; the model takes the match
   with the least song_id.  None is the empty result.
   */
  function SongSelect(songs: map<string, Song>, artists: map<string, Artist>,
                      title: string, artistName: string, duration: Float): (r: Option<(string, string)>)
  {
    var found := set k | k in songs && IsMatch(songs, artists, k, title, artistName, duration);
    if found == {} then None
    else
      var songId := Least(found);
      Some((songId, songs[songId].artistId))
  }

  /**
   The lookup finds nothing exactly when no song matches; otherwise it returns
   a matching song, the least matching song_id, together with that song's
   artist_id, which names a stored artist.
   */
  lemma SongSelectSpec(songs: map<string, Song>, artists: map<string, Artist>,
                       title: string, artistName: string, duration: Float)
    ensures var r := SongSelect(songs, artists, title, artistName, duration);
            && (r.None? <==> forall k :: k in songs ==> !IsMatch(songs, artists, k, title, artistName, duration))
            && (r.Some? ==> IsMatch(songs, artists, r.value.0, title, artistName, duration)
                            && r.value.1 == songs[r.value.0].artistId && r.value.1 in artists)
            && (r.Some? ==> forall k :: IsMatch(songs, artists, k, title, artistName, duration) ==> LexLe(r.value.0, k))
  {
    var found := set k | k in songs && IsMatch(songs, artists, k, title, artistName, duration);
    assert forall k :: IsMatch(songs, artists, k, title, artistName, duration) ==> k in found;
  }

  /**
   The store behind the cursor: five tables updated in place by the INSERT
   statements, plus the number of commits and the contents as of the last
   commit (what a failed run leaves behind).
   */
  class Store {
    var songs: map<string, Song>
    var artists: map<string, Artist>
    var users: map<int, User>
    var time: map<int, Calendar.TimeRow>
    var songplays: map<int, Songplay>
    var commits: nat
    var committed: Tables

    /** The tables as a value. */
    function Contents(): (r: Tables)
      reads this
    {
      Tables(songs, artists, users, time, songplays)
    }

    constructor ()
      ensures Contents() == EmptyTables && commits == 0 && committed == EmptyTables
    {
      songs, artists, users, time, songplays := map[], map[], map[], map[], map[];
      commits, committed := 0, EmptyTables;
    }

    method InsertSong(songId: string, row: Song)
      modifies this
      ensures Contents() == WithSong(old(Contents()), songId, row)
      ensures commits == old(commits) && committed == old(committed)
    {
      if songId !in songs {
        songs := songs[songId := row];
      }
    }

    method InsertArtist(artistId: string, row: Artist)
      modifies this
      ensures Contents() == WithArtist(old(Contents()), artistId, row)
      ensures commits == old(commits) && committed == old(committed)
    {
      if artistId !in artists {
        artists := artists[artistId := row];
      }
    }

    method InsertTime(startTime: int, row: Calendar.TimeRow)
      modifies this
      ensures Contents() == WithTime(old(Contents()), startTime, row)
      ensures commits == old(commits) && committed == old(committed)
    {
      if startTime !in time {
        time := time[startTime := row];
      }
    }

    method InsertUser(userId: int, row: User)
      modifies this
      ensures Contents() == WithUser(old(Contents()), userId, row)
      ensures commits == old(commits) && committed == old(committed)
    {
      if userId in users {
        users := users[userId := users[userId].(level := row.level)];
      } else {
        users := users[userId := row];
      }
    }

    /** Returns false, changing nothing, when the statement violates the UNIQUE constraint. */
    method InsertSongplay(songplayId: int, row: Songplay) returns (ok: bool)
      modifies this
      ensures var r := WithSongplay(old(Contents()), songplayId, row);
              ok == r.Some? && Contents() == if ok then r.value else old(Contents())
      ensures commits == old(commits) && committed == old(committed)
    {
      if songplayId in songplays {
        ok := true;
      } else if SessionTaken(songplays, row) {
        ok := false;
      } else {
        songplays := songplays[songplayId := row];
        ok := true;
      }
    }

    /** `conn.commit()`: the current contents become durable. */
    method Commit()
      modifies this
      ensures Contents() == old(Contents())
      ensures commits == old(commits) + 1 && committed == Contents()
    {
      commits := commits + 1;
      committed := Contents();
    }
  }

  /**
   A second insert under a key already written changes nothing, whatever
   row it carries: the first write wins for songs, artists and time rows.
   */
  lemma FirstWriteWins(t: Tables, songId: string, song1: Song, song2: Song, artistId: string,
                       artist1: Artist, artist2: Artist, startTime: int, row1: Calendar.TimeRow,
                       row2: Calendar.TimeRow)
    ensures WithSong(WithSong(t, songId, song1), songId, song2) == WithSong(t, songId, song1)
    ensures WithArtist(WithArtist(t, artistId, artist1), artistId, artist2) == WithArtist(t, artistId, artist1)
    ensures WithTime(WithTime(t, startTime, row1), startTime, row2) == WithTime(t, startTime, row1)
  {
  }

  /**
   Two upserts of the same user amount to one carrying the first row's
   names and gender with the second row's level: the last level wins.
   */
  lemma LastLevelWins(t: Tables, userId: int, first: User, second: User)
    ensures WithUser(WithUser(t, userId, first), userId, second) == WithUser(t, userId, first.(level := second.level))
  {
  }
}
