/** The catalog queries of the song-recommendation API: `GET /songs` and
    `GET /recommend/artist/<song_id>`.  The two tables are sequences of
    records; each SQL statement is a pure function over them, so neither
    query can change the catalog.  The functions keep the catalog's order,
    but every property below is stated by membership or multiplicity, since
    the store's row order is unspecified. */
module Catalog {
  import opened Wrappers

  /** A row of the `songs` table. */
  datatype Song = Song(songId: int, title: string, year: int, playCount: int, artistId: int)

  /** A row of the `artists` table; `genre` is a nullable column. */
  datatype Artist = Artist(artistId: int, name: string, genre: Option<string>)

  /** One row of `songs JOIN artists ON songs.artist_id = artists.artist_id`. */
  datatype Joined = Joined(song: Song, artist: Artist)

  /** A row of `GET /songs`: song_id, title, artist (the artist's name), year, play_count. */
  datatype SongRow = SongRow(songId: int, title: string, artist: string, year: int, playCount: int)

  /** A row of `GET /recommend/artist/<song_id>`: song_id, title, artist, play_count, genre. */
  datatype RecommendationRow =
    RecommendationRow(songId: int, title: string, artist: string, playCount: int, genre: Option<string>)

  /** The failures of `recommend_artist`: `SongNotFound` is the 404 answer "Song not
      found"; `IdOutOfRange` is the driver refusing to bind an id that no SQLite
      INTEGER can hold, an uncaught exception and so a 500 answer. */
  datatype Error = SongNotFound | IdOutOfRange

  /** The least and greatest SQLite INTEGER (a signed 64-bit value). */
  const MinSqlInteger: int := -0x8000_0000_0000_0000
  const MaxSqlInteger: int := 0x7FFF_FFFF_FFFF_FFFF

  /** An integer the driver can bind as a query parameter. */
  predicate InSqlIntegerRange(n: int) {
    MinSqlInteger <= n <= MaxSqlInteger
  }

  /** The join condition `songs.artist_id = artists.artist_id`. */
  predicate JoinsOn(s: Song, a: Artist) {
    s.artistId == a.artistId
  }

  /** `artist_id` is the key of `artists`. */
  predicate UniqueArtistIds(artists: seq<Artist>) {
    forall i, j :: 0 <= i < j < |artists| ==> artists[i].artistId != artists[j].artistId
  }

  /** `song_id` is the key of `songs`. */
  predicate UniqueSongIds(songs: seq<Song>) {
    forall i, j :: 0 <= i < j < |songs| ==> songs[i].songId != songs[j].songId
  }

  /** Some song with id `songId` joins to some artist. */
  predicate SongJoins(songs: seq<Song>, artists: seq<Artist>, songId: int) {
    exists s, a :: s in songs && a in artists && s.songId == songId && JoinsOn(s, a)
  }

  // ---------------------------------------------------------------------
  // The inner join
  // ---------------------------------------------------------------------

  /** The joined rows one song contributes: one per artist with its artist id. */
  function JoinOne(s: Song, artists: seq<Artist>): (rows: seq<Joined>)
    ensures forall j :: j in rows <==> j.song == s && j.artist in artists && JoinsOn(s, j.artist)
  {
    if artists == [] then []
    else
      (if JoinsOn(s, artists[0]) then [Joined(s, artists[0])] else []) + JoinOne(s, artists[1..])
  }

  /** `songs JOIN artists ON songs.artist_id = artists.artist_id`, as a nested-loop join:
      exactly the pairs of a song and an artist that agree on the artist id. */
  function Join(songs: seq<Song>, artists: seq<Artist>): (rows: seq<Joined>)
    ensures forall j :: j in rows <==> j.song in songs && j.artist in artists && JoinsOn(j.song, j.artist)
  {
    if songs == [] then []
    else
      assert forall s :: s in songs <==> s == songs[0] || s in songs[1..];
      JoinOne(songs[0], artists) + Join(songs[1..], artists)
  }

  // ---------------------------------------------------------------------
  // GET /songs
  // ---------------------------------------------------------------------

  /** The select list `songs.song_id, songs.title, artists.name AS artist, songs.year, songs.play_count`. */
  function ToSongRow(j: Joined): (r: SongRow)
    ensures r.songId == j.song.songId && r.title == j.song.title && r.year == j.song.year
    ensures r.playCount == j.song.playCount && r.artist == j.artist.name
  {
    SongRow(j.song.songId, j.song.title, j.artist.name, j.song.year, j.song.playCount)
  }

  /** The select list applied to every joined row, one output row per input row. */
  function ProjectSongs(rows: seq<Joined>): (out: seq<SongRow>)
    ensures |out| == |rows|
    ensures forall j :: j in rows ==> ToSongRow(j) in out
    ensures forall x :: x in out ==> exists j :: j in rows && x == ToSongRow(j)
  {
    if rows == [] then []
    else [ToSongRow(rows[0])] + ProjectSongs(rows[1..])
  }

  /** `get_songs`: every song that joins to an artist, with that artist's name. */
  function GetSongs(songs: seq<Song>, artists: seq<Artist>): (out: seq<SongRow>)
    ensures forall s, a :: s in songs && a in artists && JoinsOn(s, a) ==>
              SongRow(s.songId, s.title, a.name, s.year, s.playCount) in out
    ensures forall x :: x in out ==>
              exists s, a :: s in songs && a in artists && JoinsOn(s, a) &&
                x == SongRow(s.songId, s.title, a.name, s.year, s.playCount)
  {
    var rows := Join(songs, artists);
    assert forall s, a :: s in songs && a in artists && JoinsOn(s, a) ==> Joined(s, a) in rows;
    ProjectSongs(rows)
  }

  /** The artist a song refers to, found by key: the first artist with its artist id. */
  function ArtistOf(s: Song, artists: seq<Artist>): (r: Option<Artist>)
    ensures r.Some? ==> r.value in artists && JoinsOn(s, r.value)
    ensures r.None? <==> forall a :: a in artists ==> !JoinsOn(s, a)
  {
    if artists == [] then None
    else if JoinsOn(s, artists[0]) then Some(artists[0])
    else ArtistOf(s, artists[1..])
  }

  /** A reference definition of `GET /songs` by key lookup: one row per song whose
      artist exists, carrying that artist's name; songs with a dangling artist id
      produce nothing. */
  function SongsByLookup(songs: seq<Song>, artists: seq<Artist>): (out: seq<SongRow>)
    ensures |out| <= |songs|
  {
    if songs == [] then []
    else
      var s := songs[0];
      (match ArtistOf(s, artists)
       case None => []
       case Some(a) => [SongRow(s.songId, s.title, a.name, s.year, s.playCount)])
      + SongsByLookup(songs[1..], artists)
  }

  lemma {:induction false} ProjectSongsAppend(xs: seq<Joined>, ys: seq<Joined>)
    ensures ProjectSongs(xs + ys) == ProjectSongs(xs) + ProjectSongs(ys)
  {
    if xs == [] {
      assert xs + ys == ys;
    } else {
      assert (xs + ys)[1..] == xs[1..] + ys;
      ProjectSongsAppend(xs[1..], ys);
    }
  }

  /** With `artist_id` a key, a song joins to at most one artist: the one `ArtistOf` finds. */
  lemma {:induction false} JoinOneByKey(s: Song, artists: seq<Artist>)
    requires UniqueArtistIds(artists)
    ensures JoinOne(s, artists) == match ArtistOf(s, artists)
                                   case None => []
                                   case Some(a) => [Joined(s, a)]
  {
    if artists != [] {
      var tail := artists[1..];
      assert UniqueArtistIds(tail) by {
        forall i, j | 0 <= i < j < |tail| ensures tail[i].artistId != tail[j].artistId {
          assert tail[i] == artists[i + 1] && tail[j] == artists[j + 1];
        }
      }
      JoinOneByKey(s, tail);
      if JoinsOn(s, artists[0]) {
        forall a | a in tail ensures !JoinsOn(s, a) {
          var k :| 0 <= k < |tail| && tail[k] == a;
          assert artists[k + 1] == a;
        }
        assert ArtistOf(s, tail).None?;
      }
    }
  }

  /** `get_songs` returns exactly one row per song whose artist id matches an
      artist (counted with multiplicity), with that artist's name; songs with a
      dangling artist id are dropped.  Row order is not part of the claim. */
  lemma {:induction false} GetSongsOneRowPerSong(songs: seq<Song>, artists: seq<Artist>)
    requires UniqueArtistIds(artists)
    ensures multiset(GetSongs(songs, artists)) == multiset(SongsByLookup(songs, artists))
  {
    if songs != [] {
      var s := songs[0];
      JoinOneByKey(s, artists);
      ProjectSongsAppend(JoinOne(s, artists), Join(songs[1..], artists));
      GetSongsOneRowPerSong(songs[1..], artists);
    }
  }

  /** Hence `get_songs` has as many rows as there are songs with an existing artist,
      never more rows than songs. */
  lemma GetSongsSize(songs: seq<Song>, artists: seq<Artist>)
    requires UniqueArtistIds(artists)
    ensures |GetSongs(songs, artists)| == |SongsByLookup(songs, artists)| <= |songs|
  {
    GetSongsOneRowPerSong(songs, artists);
    assert |multiset(GetSongs(songs, artists))| == |multiset(SongsByLookup(songs, artists))|;
  }

  // ---------------------------------------------------------------------
  // GET /recommend/artist/<song_id>
  // ---------------------------------------------------------------------

  /** `... WHERE songs.song_id = ?` followed by `fetchone()`: the first joined row
      with that song id, or nothing. */
  function FetchSeed(rows: seq<Joined>, songId: int): (r: Option<Joined>)
    ensures r.Some? ==> r.value in rows && r.value.song.songId == songId
    ensures r.None? <==> forall j :: j in rows ==> j.song.songId != songId
  {
    if rows == [] then None
    else if rows[0].song.songId == songId then Some(rows[0])
    else FetchSeed(rows[1..], songId)
  }

  /** The first statement of `recommend_artist`: `SELECT artists.genre FROM songs JOIN
      artists ... WHERE songs.song_id = ?`.  `None` is "no row"; `Some(None)` is a row
      whose genre is NULL. */
  function SeedGenre(songs: seq<Song>, artists: seq<Artist>, songId: int): (r: Option<Option<string>>)
    ensures r.None? <==> !SongJoins(songs, artists, songId)
    ensures r.Some? ==> exists s, a :: s in songs && a in artists && JoinsOn(s, a) &&
                          s.songId == songId && r.value == a.genre
  {
    var rows := Join(songs, artists);
    assert SongJoins(songs, artists, songId) ==> exists j :: j in rows && j.song.songId == songId by {
      if SongJoins(songs, artists, songId) {
        var s, a :| s in songs && a in artists && s.songId == songId && JoinsOn(s, a);
        assert Joined(s, a) in rows;
      }
    }
    match FetchSeed(rows, songId)
    case None => None
    case Some(j) => Some(j.artist.genre)
  }

  /** `column = ?` in a WHERE clause under SQL's three-valued logic: a comparison
      with NULL on either side is unknown, and an unknown row is not selected. */
  function SqlEquals(column: Option<string>, param: Option<string>): (selected: bool)
    ensures column.None? || param.None? ==> !selected
    ensures selected <==> column.Some? && column == param
  {
    column.Some? && param.Some? && column.value == param.value
  }

  /** The WHERE clause `artists.genre = ? AND songs.song_id != ?`. */
  function SameGenreNotSeed(j: Joined, genre: Option<string>, songId: int): (kept: bool)
    ensures kept <==> genre.Some? && j.artist.genre == genre && j.song.songId != songId
  {
    SqlEquals(j.artist.genre, genre) && j.song.songId != songId
  }

  /** The select list `songs.song_id, songs.title, artists.name AS artist, songs.play_count, artists.genre`. */
  function ToRecommendationRow(j: Joined): (r: RecommendationRow)
    ensures r.songId == j.song.songId && r.title == j.song.title && r.playCount == j.song.playCount
    ensures r.artist == j.artist.name && r.genre == j.artist.genre
  {
    RecommendationRow(j.song.songId, j.song.title, j.artist.name, j.song.playCount, j.artist.genre)
  }

  /** The second statement of `recommend_artist`, over the joined rows: the rows
      that pass the WHERE clause, projected. */
  function SameGenre(rows: seq<Joined>, genre: Option<string>, songId: int): (out: seq<RecommendationRow>)
    ensures forall j :: j in rows && SameGenreNotSeed(j, genre, songId) ==> ToRecommendationRow(j) in out
    ensures forall x :: x in out ==> exists j :: j in rows && SameGenreNotSeed(j, genre, songId) && x == ToRecommendationRow(j)
  {
    if rows == [] then []
    else
      (if SameGenreNotSeed(rows[0], genre, songId) then [ToRecommendationRow(rows[0])] else [])
      + SameGenre(rows[1..], genre, songId)
  }

  /** `recommend_artist(song_id)`: an id outside SQLite's INTEGER range fails when
      it is bound for the first query; otherwise NotFound exactly when no song with
      that id joins to an artist, and else the songs of the seed's genre other than
      the seed, each row carrying that genre. */
  function RecommendArtist(songs: seq<Song>, artists: seq<Artist>, songId: int)
    : (r: Result<seq<RecommendationRow>, Error>)
    ensures r.Failure? <==> !InSqlIntegerRange(songId) || !SongJoins(songs, artists, songId)
    ensures r.Failure? ==> r.error == (if InSqlIntegerRange(songId) then SongNotFound else IdOutOfRange)
    ensures r.Success? ==> forall x :: x in r.value ==> x.songId != songId
    ensures r.Success? ==> forall x :: x in r.value ==> x.genre.Some? && x.genre == SeedGenre(songs, artists, songId).value
  {
    if !InSqlIntegerRange(songId) then Failure(IdOutOfRange)
    else match SeedGenre(songs, artists, songId)
    case None => Failure(SongNotFound)
    case Some(genre) => Success(SameGenre(Join(songs, artists), genre, songId))
  }

  /** An id past the greatest SQLite INTEGER, which the route's `int` converter lets
      through, is never looked up: binding it fails, whatever the catalog holds. */
  lemma RecommendIdPastInteger(songs: seq<Song>, artists: seq<Artist>)
    ensures RecommendArtist(songs, artists, MaxSqlInteger + 1) == Failure(IdOutOfRange)
    ensures MaxSqlInteger + 1 == 0x8000_0000_0000_0000
  {
  }

  /** A reference definition of the second query by key lookup: for each song in
      turn, its artist's row when that artist exists, has the genre under SQL
      comparison, and the song is not the seed. */
  function RecommendByLookup(songs: seq<Song>, artists: seq<Artist>, genre: Option<string>, songId: int)
    : (out: seq<RecommendationRow>)
    ensures |out| <= |songs|
  {
    if songs == [] then []
    else
      var s := songs[0];
      (match ArtistOf(s, artists)
       case None => []
       case Some(a) =>
         if SqlEquals(a.genre, genre) && s.songId != songId
         then [RecommendationRow(s.songId, s.title, a.name, s.playCount, a.genre)]
         else [])
      + RecommendByLookup(songs[1..], artists, genre, songId)
  }

  lemma {:induction false} SameGenreAppend(xs: seq<Joined>, ys: seq<Joined>, genre: Option<string>, songId: int)
    ensures SameGenre(xs + ys, genre, songId) == SameGenre(xs, genre, songId) + SameGenre(ys, genre, songId)
  {
    if xs == [] {
      assert xs + ys == ys;
    } else {
      assert (xs + ys)[0] == xs[0] && (xs + ys)[1..] == xs[1..] + ys;
      SameGenreAppend(xs[1..], ys, genre, songId);
    }
  }

  /** With `artist_id` a key, the rows one song contributes to the second query
      are those the key lookup gives for it. */
  lemma SameGenreJoinOne(s: Song, artists: seq<Artist>, genre: Option<string>, songId: int)
    requires UniqueArtistIds(artists)
    ensures SameGenre(JoinOne(s, artists), genre, songId) == RecommendByLookup([s], artists, genre, songId)
  {
    JoinOneByKey(s, artists);
    assert [s][1..] == [];
    match ArtistOf(s, artists)
    case None =>
    case Some(a) =>
      assert [Joined(s, a)][1..] == [];
  }

  lemma RecommendByLookupCons(songs: seq<Song>, artists: seq<Artist>, genre: Option<string>, songId: int)
    requires songs != []
    ensures RecommendByLookup(songs, artists, genre, songId) ==
            RecommendByLookup([songs[0]], artists, genre, songId) + RecommendByLookup(songs[1..], artists, genre, songId)
  {
    assert [songs[0]][1..] == [];
  }

  /** With `artist_id` a key, the second query lists each qualifying song exactly
      as often as it occurs in `songs` (counted with multiplicity): no song is
      listed twice through two artists. */
  lemma {:induction false} SameGenreOneRowPerSong(songs: seq<Song>, artists: seq<Artist>, genre: Option<string>, songId: int)
    requires UniqueArtistIds(artists)
    ensures multiset(SameGenre(Join(songs, artists), genre, songId)) ==
            multiset(RecommendByLookup(songs, artists, genre, songId))
  {
    if songs != [] {
      var s := songs[0];
      var head, tail := JoinOne(s, artists), Join(songs[1..], artists);
      assert Join(songs, artists) == head + tail;
      SameGenreJoinOne(s, artists, genre, songId);
      SameGenreAppend(head, tail, genre, songId);
      SameGenreOneRowPerSong(songs[1..], artists, genre, songId);
      RecommendByLookupCons(songs, artists, genre, songId);
    }
  }

  /** `recommend_artist` answers, for a found seed, exactly one row per qualifying
      song of the catalog (multiset equality with the key-lookup reference). */
  lemma RecommendOneRowPerSong(songs: seq<Song>, artists: seq<Artist>, songId: int)
    requires UniqueArtistIds(artists)
    requires InSqlIntegerRange(songId) && SongJoins(songs, artists, songId)
    ensures RecommendArtist(songs, artists, songId).Success?
    ensures multiset(RecommendArtist(songs, artists, songId).value) ==
            multiset(RecommendByLookup(songs, artists, SeedGenre(songs, artists, songId).value, songId))
  {
    SameGenreOneRowPerSong(songs, artists, SeedGenre(songs, artists, songId).value, songId);
  }

  /** Soundness: every recommended row is a joined catalog song of the seed's genre
      other than the seed, with its own title, artist name and play count. */
  lemma RecommendSound(songs: seq<Song>, artists: seq<Artist>, songId: int, x: RecommendationRow)
    requires RecommendArtist(songs, artists, songId).Success?
    requires x in RecommendArtist(songs, artists, songId).value
    ensures exists s, a :: s in songs && a in artists && JoinsOn(s, a) && s.songId != songId &&
              SqlEquals(a.genre, SeedGenre(songs, artists, songId).value) &&
              x == RecommendationRow(s.songId, s.title, a.name, s.playCount, a.genre)
  {
    var genre := SeedGenre(songs, artists, songId).value;
    var j :| j in Join(songs, artists) && SameGenreNotSeed(j, genre, songId) && x == ToRecommendationRow(j);
    assert j.song in songs && j.artist in artists;
  }

  /** Completeness: every joined catalog song of the seed's genre other than the
      seed is recommended. */
  lemma RecommendComplete(songs: seq<Song>, artists: seq<Artist>, songId: int, s: Song, a: Artist)
    requires InSqlIntegerRange(songId) && SongJoins(songs, artists, songId)
    requires s in songs && a in artists && JoinsOn(s, a)
    requires SqlEquals(a.genre, SeedGenre(songs, artists, songId).value)
    requires s.songId != songId
    ensures RecommendationRow(s.songId, s.title, a.name, s.playCount, a.genre)
              in RecommendArtist(songs, artists, songId).value
  {
    assert Joined(s, a) in Join(songs, artists);
  }

  /** The result is empty, and not an error, exactly when no other joined song
      shares the seed's genre (for one, when the seed is alone in its genre). */
  lemma RecommendEmptyIff(songs: seq<Song>, artists: seq<Artist>, songId: int)
    requires InSqlIntegerRange(songId) && SongJoins(songs, artists, songId)
    ensures RecommendArtist(songs, artists, songId).Success?
    ensures RecommendArtist(songs, artists, songId).value == [] <==>
              forall s, a :: s in songs && a in artists && JoinsOn(s, a) && s.songId != songId ==>
                !SqlEquals(a.genre, SeedGenre(songs, artists, songId).value)
  {
    var out := RecommendArtist(songs, artists, songId).value;
    if out != [] {
      RecommendSound(songs, artists, songId, out[0]);
    }
    forall s, a | s in songs && a in artists && JoinsOn(s, a) && s.songId != songId &&
                  SqlEquals(a.genre, SeedGenre(songs, artists, songId).value)
      ensures out != []
    {
      RecommendComplete(songs, artists, songId, s, a);
    }
  }

  /** `artists.genre = NULL` holds of no row, so the filter selects nothing. */
  lemma {:induction false} SameGenreNull(rows: seq<Joined>, songId: int)
    ensures SameGenre(rows, None, songId) == []
  {
    if rows != [] {
      SameGenreNull(rows[1..], songId);
    }
  }

  /** A seed whose artist's genre is NULL is found, but `genre = NULL` selects
      nothing, so the answer is an empty list. */
  lemma RecommendNullGenre(songs: seq<Song>, artists: seq<Artist>, songId: int)
    requires InSqlIntegerRange(songId) && SeedGenre(songs, artists, songId) == Some(None)
    ensures RecommendArtist(songs, artists, songId) == Success([])
  {
    SameGenreNull(Join(songs, artists), songId);
  }

  /** With keys respected, the seed genre is the genre of the seed song's own artist. */
  lemma SeedGenreOfSeed(songs: seq<Song>, artists: seq<Artist>, s: Song, a: Artist)
    requires UniqueSongIds(songs) && UniqueArtistIds(artists)
    requires s in songs && a in artists && JoinsOn(s, a)
    ensures SeedGenre(songs, artists, s.songId) == Some(a.genre)
  {
    var g := SeedGenre(songs, artists, s.songId);
    var s', a' :| s' in songs && a' in artists && JoinsOn(s', a') && s'.songId == s.songId && g.value == a'.genre;
    var p :| 0 <= p < |songs| && songs[p] == s;
    var q :| 0 <= q < |songs| && songs[q] == s';
    assert s' == s;
    var m :| 0 <= m < |artists| && artists[m] == a;
    var n :| 0 <= n < |artists| && artists[n] == a';
    assert a' == a;
  }

  /** For two catalog songs whose artists share a (non-NULL) genre, the second is
      recommended for the first exactly when their ids differ. */
  lemma RecommendSharedGenreIff(songs: seq<Song>, artists: seq<Artist>, s1: Song, a1: Artist, s2: Song, a2: Artist)
    requires UniqueSongIds(songs) && UniqueArtistIds(artists)
    requires s1 in songs && a1 in artists && JoinsOn(s1, a1)
    requires s2 in songs && a2 in artists && JoinsOn(s2, a2)
    requires InSqlIntegerRange(s1.songId)
    requires a1.genre.Some? && a1.genre == a2.genre
    ensures RecommendArtist(songs, artists, s1.songId).Success?
    ensures RecommendationRow(s2.songId, s2.title, a2.name, s2.playCount, a2.genre)
              in RecommendArtist(songs, artists, s1.songId).value
            <==> s1.songId != s2.songId
  {
    SeedGenreOfSeed(songs, artists, s1, a1);
    if s1.songId != s2.songId {
      RecommendComplete(songs, artists, s1.songId, s2, a2);
    }
  }

  /** A two-genre example catalog: artist 1 ("rock") owns songs 1 and 2, artist 2
      ("jazz") owns song 3. */
  predicate IsRockJazzCatalog(songs: seq<Song>, artists: seq<Artist>) {
    && songs == [Song(1, "S1", 2001, 10, 1), Song(2, "S2", 2002, 20, 1), Song(3, "S3", 2003, 30, 2)]
    && artists == [Artist(1, "A", Some("rock")), Artist(2, "B", Some("jazz"))]
  }

  lemma RockJazzSeeds(songs: seq<Song>, artists: seq<Artist>)
    requires IsRockJazzCatalog(songs, artists)
    ensures SeedGenre(songs, artists, 1) == Some(Some("rock"))
    ensures SeedGenre(songs, artists, 3) == Some(Some("jazz"))
  {
    SeedGenreOfSeed(songs, artists, songs[0], artists[0]);
    SeedGenreOfSeed(songs, artists, songs[2], artists[1]);
  }

  /** In that catalog the key lookup finds one qualifying song for seed 1: song 2. */
  lemma RockJazzLookup(songs: seq<Song>, artists: seq<Artist>)
    requires IsRockJazzCatalog(songs, artists)
    ensures RecommendByLookup(songs, artists, Some("rock"), 1) == [RecommendationRow(2, "S2", "A", 20, Some("rock"))]
  {
    var rock, jazz := artists[0], artists[1];
    assert artists[1..] == [jazz] && [jazz][1..] == [];
    assert "jazz" != "rock" by { assert "jazz"[0] != "rock"[0]; }
    assert ArtistOf(songs[0], artists) == Some(rock);
    assert ArtistOf(songs[1], artists) == Some(rock);
    assert ArtistOf(songs[2], artists) == Some(jazz);
    var tail1, tail2 := songs[1..], songs[2..];
    assert tail1[1..] == tail2 && tail2[1..] == [];
    assert RecommendByLookup(tail2, artists, Some("rock"), 1) == [];
    assert RecommendByLookup(tail1, artists, Some("rock"), 1) == [RecommendationRow(2, "S2", "A", 20, Some("rock"))];
  }

  /** In that catalog song 1 is answered with exactly one row, song 2. */
  lemma RecommendScenarioRock(songs: seq<Song>, artists: seq<Artist>)
    requires IsRockJazzCatalog(songs, artists)
    ensures RecommendArtist(songs, artists, 1) == Success([RecommendationRow(2, "S2", "A", 20, Some("rock"))])
  {
    RockJazzSeeds(songs, artists);
    RockJazzLookup(songs, artists);
    RecommendOneRowPerSong(songs, artists, 1);
    var out := RecommendArtist(songs, artists, 1).value;
    var row := RecommendationRow(2, "S2", "A", 20, Some("rock"));
    assert multiset(out) == multiset{row};
    assert |out| == 1 by {
      assert |multiset(out)| == |multiset{row}|;
    }
    assert out[0] in multiset(out);
    assert out == [row];
  }

  /** Song 3, alone in its genre, is answered with an empty list rather than an error. */
  lemma RecommendScenarioJazz(songs: seq<Song>, artists: seq<Artist>)
    requires IsRockJazzCatalog(songs, artists)
    ensures RecommendArtist(songs, artists, 3) == Success([])
  {
    RockJazzSeeds(songs, artists);
    assert "jazz" != "rock" by { assert "jazz"[0] != "rock"[0]; }
    RecommendEmptyIff(songs, artists, 3);
  }
}
