# song-recommendations: a verified model of the catalog queries and the friend-URL form

This project models two small pieces of the song-recommendation service in Dafny
and proves what they promise.

* **The catalog queries of the Flask API** (`app.py`). The `songs` and `artists`
  tables are sequences of records (`Catalog.Song`, `Catalog.Artist`, with the
  artist's `genre` a nullable column, `Option<string>`). Each SQL statement is a
  pure function over those sequences:
  - `songs JOIN artists ON songs.artist_id = artists.artist_id` is `Catalog.Join`,
    a nested-loop join that assumes no key constraint;
  - `GET /songs` (`get_songs`) is `Catalog.GetSongs`, the join followed by the select list;
  - `GET /recommend/artist/<song_id>` (`recommend_artist`) is `Catalog.RecommendArtist`.
    An id outside SQLite's 64-bit INTEGER range cannot be bound as a query
    parameter: the driver raises, nothing catches it, and the answer is a 500
    (`IdOutOfRange`). Otherwise it first looks up the seed's genre (`Catalog.SeedGenre`,
    the first joined row, as `fetchone()` returns it). When there is no such row it
    fails with `SongNotFound`, which the route answers with 404. Otherwise it keeps the joined rows that pass
    `artists.genre = ? AND songs.song_id != ?` (`Catalog.SameGenre`).
  `artists.genre = ?` follows SQL's three-valued logic (`Catalog.SqlEquals`). A NULL
  on either side selects nothing. So a seed whose artist has a NULL genre is found,
  and the answer is an empty list.
  Both queries are functions of the two tables, so neither can change the catalog.
  The functions happen to keep catalog order. No lemma depends on that order: every
  property is stated by membership, or by multiplicity (a multiset).
* **The "Add a Spotify Friend" page** (`frontend/pages/add-friend.tsx`).
  - `extractId` is `AddFriend.ExtractId`. It splits the URL's pathname on `/`
    (`AddFriend.Split`, JavaScript's `split`, with its inverse `AddFriend.JoinWith`).
    It then finds the first segment `user` (`AddFriend.IndexOf`, JavaScript's
    `indexOf`) and returns the segment after it, or nothing.
  - The submit gate `if (!friendId)` is `AddFriend.FriendIdToSend`: a null or empty
    id means no request.
  - The page's state cells `url`, `message`, `error` and `loading` are the fields of
    the class `AddFriend.AddFriendForm`. Its methods `OnChange` and `OnSubmit` update
    the fields the way the handlers' setters do.
  - The browser's URL parser (`new URL(input.trim()).pathname`) is a parameter. It
    is a function from the typed text to the pathname, or `None` when the text is
    not a URL.

Files: `wrappers.dfy` (Option, Result), `catalog.dfy` (module `Catalog`),
`add_friend.dfy` (module `AddFriend`).

Two consequences of the code are worth spelling out:

* `recommend_artist` looks the seed up through the join, so a song whose
  `artist_id` matches no artist is also "Song not found" (404), exactly as a
  missing song id is. `RecommendArtist`'s contract states this condition, `SongJoins`.
* A seed whose artist has a NULL genre is found, but `artists.genre = NULL`
  selects nothing, so the answer is an empty list rather than an error
  (`RecommendNullGenre`).

## Model

| member | source | states |
|---|---|---|
| `Catalog.ToSongRow` | app.py:24 | a `/songs` row takes id, title, year and play count from the song and `artist` from the joined artist's name |
| `Catalog.JoinOne` | app.py:26 | the joined rows of one song are exactly the pairs of that song with an artist of the same `artist_id` |
| `Catalog.Join` | app.py:23-27 | the inner join holds a (song, artist) pair exactly when the song is in `songs`, the artist is in `artists` and they agree on `artist_id` |
| `Catalog.ProjectSongs` | app.py:24 | the select list gives one output row per joined row, and each joined row's projection appears |
| `Catalog.GetSongs` | app.py:20-30 | `get_songs` lists, for every song that joins to an artist, its id, title, year, play count and that artist's name; every listed row comes from such a pair |
| `Catalog.JoinOneByKey` | app.py:26 | when `artist_id` is a key, a song joins to at most one artist, the one found by key lookup |
| `Catalog.GetSongsOneRowPerSong` | app.py:23-30 | when `artist_id` is a key, `get_songs` has exactly one row per song whose artist exists, with that artist's name, counted with multiplicity; songs with a dangling `artist_id` are dropped |
| `Catalog.GetSongsSize` | app.py:23-30 | when `artist_id` is a key, the number of rows equals the number of songs with an existing artist, and never exceeds the number of songs |
| `Catalog.FetchSeed` | app.py:36-41 | `fetchone()` after `WHERE songs.song_id = ?` returns a joined row with that id, and returns nothing exactly when no joined row has that id |
| `Catalog.SeedGenre` | app.py:36-43 | the seed lookup finds nothing exactly when no song with that id joins to an artist; otherwise it yields the genre (possibly NULL) of an artist that such a song joins to |
| `Catalog.SqlEquals` | app.py:52 | `artists.genre = ?` under SQL three-valued logic: a comparison with NULL on either side selects nothing; otherwise it is string equality |
| `Catalog.SameGenreNotSeed` | app.py:52 | the WHERE clause keeps a joined row exactly when the genre parameter is non-NULL and equals the artist's genre, and the song id is not the seed's |
| `Catalog.ToRecommendationRow` | app.py:49 | a recommendation row takes id, title and play count from the song, and `artist` and `genre` from the joined artist |
| `Catalog.SameGenre` | app.py:48-53 | the second query returns exactly the projections of the joined rows whose genre equals the parameter under SQL comparison and whose song id is not the seed's |
| `Catalog.SameGenreJoinOne` | app.py:48-53 | when `artist_id` is a key, the rows one song contributes to the second query are the ones a key lookup of its artist gives |
| `Catalog.SameGenreOneRowPerSong` | app.py:48-53 | when `artist_id` is a key, the second query lists each qualifying song exactly as often as it occurs in `songs`, counted with multiplicity, never twice through two artists |
| `Catalog.RecommendArtist` | app.py:33-55 | `recommend_artist` fails exactly when the id is outside SQLite's INTEGER range (`IdOutOfRange`, the bind raises: 500) or no song with that id joins to an artist (`SongNotFound`: 404); on success no row is the seed and every row carries the seed's non-NULL genre |
| `Catalog.RecommendIdPastInteger` | app.py:32-41 | the id 2^63, which the `int` converter accepts, fails at the bind with `IdOutOfRange` in any catalog, instead of reaching the lookup |
| `Catalog.RecommendOneRowPerSong` | app.py:36-55 | when `artist_id` is a key and the seed is found, the answer holds exactly one row per qualifying song, counted with multiplicity against a key-lookup reference |
| `Catalog.RecommendSound` | app.py:46-53 | every recommended row is a joined catalog song other than the seed, whose artist's genre equals the seed genre, with its own title, artist name and play count |
| `Catalog.RecommendComplete` | app.py:48-53 | every joined catalog song other than the seed whose artist's genre equals the seed genre is recommended |
| `Catalog.RecommendEmptyIff` | app.py:48-55 | for a found seed the answer is a list, and it is empty exactly when no other joined song shares the seed's genre (a seed alone in its genre gets an empty list, not an error) |
| `Catalog.SameGenreNull` | app.py:52 | `artists.genre = NULL` selects no row |
| `Catalog.RecommendNullGenre` | app.py:46-53 | a seed whose artist's genre is NULL is found, and the answer is the empty list |
| `Catalog.SeedGenreOfSeed` | app.py:36-46 | when `song_id` and `artist_id` are keys, the seed genre is the genre of the seed song's own artist |
| `Catalog.RecommendSharedGenreIff` | app.py:36-53 | when `song_id` and `artist_id` are keys, for two songs whose artists share a non-NULL genre, the second is recommended for the first exactly when their ids differ |
| `Catalog.RockJazzSeeds` | app.py:36-46 | in a two-genre example catalog (two rock songs by one artist, one jazz song by another), the seed genres of song 1 and song 3 are "rock" and "jazz" |
| `Catalog.RockJazzLookup` | app.py:48-53 | in that catalog, the key-lookup reference for seed 1 and genre "rock" is exactly song 2 |
| `Catalog.RecommendScenarioRock` | app.py:33-55 | in that catalog, song 1 gets exactly `[song 2]`: one row, no duplicate |
| `Catalog.RecommendScenarioJazz` | app.py:33-55 | in that catalog, the jazz song, alone in its genre, gets an empty list and not an error |
| `AddFriend.Split` | frontend/pages/add-friend.tsx:22 | `split('/')` yields at least one segment, and no segment contains `/` |
| `AddFriend.JoinSplit` | frontend/pages/add-friend.tsx:22 | joining the segments with `/` gives back the pathname: splitting loses nothing |
| `AddFriend.SplitJoin` | frontend/pages/add-friend.tsx:22 | splitting a join of `/`-free segments gives back those segments |
| `AddFriend.IndexOf` | frontend/pages/add-friend.tsx:23 | `indexOf` is -1 exactly when the value is absent; otherwise it is the position of its first occurrence |
| `AddFriend.ExtractId` | frontend/pages/add-friend.tsx:18-31 | a parse failure gives null, and a returned id never contains `/` |
| `AddFriend.ExtractIdSpec` | frontend/pages/add-friend.tsx:22-30 | for a parsed URL, an id is returned exactly when some `user` segment has a segment after it, and the id is the segment right after the first `user` |
| `AddFriend.ExtractIdAfterFirstUser` | frontend/pages/add-friend.tsx:22-25 | when the first `user` segment is followed by a segment, that segment is the id |
| `AddFriend.ExtractIdNoUser` | frontend/pages/add-friend.tsx:23-30 | without a `user` segment the result is null |
| `AddFriend.ExtractIdUserLast` | frontend/pages/add-friend.tsx:24-30 | when the first `user` segment is the last segment the result is null |
| `AddFriend.ExtractIdFirstOccurrence` | frontend/pages/add-friend.tsx:23-25 | only the first `user` counts: `/user/user/x` yields `user` |
| `AddFriend.ExtractIdTrailingSlash` | frontend/pages/add-friend.tsx:22-25 | `/user/` yields the empty id |
| `AddFriend.ExtractIdProfile` | frontend/pages/add-friend.tsx:20-25 | the pathname of a profile URL, `/user/yvonnemongare`, yields `yvonnemongare` |
| `AddFriend.FriendIdToSend` | frontend/pages/add-friend.tsx:39-44 | a request is made exactly when the extracted id is neither null nor empty; the id sent is the extracted one and contains no `/` |
| `AddFriend.NoRequestWithoutUrl` | frontend/pages/add-friend.tsx:39-44 | text that is not a URL never leads to a request |
| `AddFriend.RequestNeedsUserSegment` | frontend/pages/add-friend.tsx:39-52 | the `friend_id` sent is always the segment right after a `user` segment of the pathname |
| `AddFriend.AddFriendForm.constructor` | frontend/pages/add-friend.tsx:5-8 | the page starts with empty text, no message, no error, not loading |
| `AddFriend.AddFriendForm.OnChange` | frontend/pages/add-friend.tsx:11-15 | `onChange` stores the new text and clears both `message` and `error`; `loading` is unchanged |
| `AddFriend.AddFriendForm.OnSubmit` | frontend/pages/add-friend.tsx:34-46 | `onSubmit` clears both messages. On a null or empty id it sets the parse error and returns before `loading` is set, and makes no request. Otherwise it sets `loading` and sends the extracted id. The text is unchanged |

## Left out

- Flask routing, `jsonify`, HTTP status codes, `app.run` and the `/` welcome route are framework I/O. Outcomes are a `Result`: `SongNotFound` stands for the 404 answer, `IdOutOfRange` for the 500 that the driver's uncaught `OverflowError` produces.
- The route converter `<int:song_id>` is left out. Flask answers non-integer ids and negative ids (the converter is unsigned) itself before the handler runs, so `RecommendArtist` also accepts ids that never reach it. Arbitrarily large digit strings do reach it, and those outside SQLite's INTEGER range are modelled.
- FetchSeed, SeedGenre: model the first statement once its id is bound; an id outside SQLite's INTEGER range never reaches them, because `RecommendArtist` fails with `IdOutOfRange` first. The lemmas that conclude success (`RecommendEmptyIff`, `RecommendComplete`, `RecommendOneRowPerSong`, `RecommendNullGenre`, `RecommendSharedGenreIff`) therefore take an in-range id, which every stored `song_id` is.
- `get_db_connection`, `conn.close` and the SQLite engine are I/O, so the tables are in-memory sequences. Failures of the store itself (a missing database file, a locked database) are not modelled.
- NULL in `songs.song_id` or `songs.artist_id` is not modelled; both are plain integers. A NULL `artist_id` would join nothing, just like a dangling id, which is modelled.
- Row order is not modelled: the store's order is unspecified, and no property depends on it.
- The URL parser `new URL(input.trim())`, with its trimming and query-string stripping, is a foreign library. It is the `parse` parameter of `OnSubmit`, and `ExtractId` takes its pathname, or a parse failure, as its input.
- JavaScript strings are UTF-16 code units; the model uses Dafny characters. Splitting on `/` is unaffected.
- `e.preventDefault()`, `console.log`, the `fetch('/add_friend')` call and its response handling are left out. So are the success and error messages after the request, the `loading` reset in `finally`, and the JSX rendering. These are async network work and UI. `OnSubmit` stops at the point where the request would be sent, and returns the `friend_id` it would send.
- React batches the setter calls, and the model applies them in order. Both give the same final state.
- `frontend/next.config.ts` is a development proxy rule with no logic.
- OAuth and session handling, the `/add_friend`, `/friends` and `/following` endpoints, recommendations between users, and recommendation creation are not part of this model.
