# plvc playlist snapshot core, modelled in Dafny

plvc snapshots a user's Spotify playlists into one text file per playlist
and commits the files to a git repository. Most of the program calls Spotify,
git and GitHub. This project models the deterministic part beneath those calls:

- **`paginated`** (`util.py`). It is the generator that walks a cursor-paginated
  listing. It yields the first page, then the continuation of each page whose
  `next` is truthy, and it re-raises a service exception. Here it is a pure
  function from the remote listing to the pages yielded plus an optional
  exception. The remote listing is a finite sequence of responses: page, nothing
  or exception.
- **The `Playlist` value object** (`util.py`, and the identical copy in
  `playlist.py`). This covers its accessors, the log file path, the header line,
  the track lines and `log_tracks`. `log_tracks` is Python's stable `sorted` by
  track name under code-point string order, modelled as an insertion sort.
- **The pure data flow of `__main__.py`**. The playlist list is built from the
  listing pages. Each playlist's tracks are appended page by page. A synthetic
  "Liked Songs" playlist is filled and appended last. Each file body is the
  header, a blank line, then one line per track.

Modules: `Wrappers` (Option/Result), `Strings` (Python string order, `join`,
`split`, `find`), `Pagination`, `Sorting`, `Playlists`, `Sync`, and `Scenarios`
(a worked run: one playlist "Road Trip!" whose two tracks are fetched out of
name order).

Every operation has a partner definition and a lemma that connects the two:

- `paginated` has a declarative description of what a consumer observes.
  `Pagination.YieldsIsPaginate` proves that `Paginate` is the only behaviour
  that fits it, and the loop `Pagination.Drain` computes the same thing.
- The sort is shown to be *the* stable sort. It is sorted and keeps each name's
  tracks in their original order, and `Sorting.StableSortUnique` proves that
  only one sequence satisfies both.
- The header line parses back to its id, name and owner.
- The artist list splits back into the album's artists.
- A file body read back line by line gives the header, a blank line and the
  track lines.
- The accumulation loops of `__main__.py` are written as loops and proved equal
  to the concatenation of the pages.

Python's `str < str` compares code points lexicographically. Dafny's `<` on
sequences means "proper prefix". So `Strings.Less` defines the Python order, and
its total-order laws are proved before any sorting lemma uses them.

Behaviours of the code that the model keeps as they are:

- The loop also stops on a falsy page (`None` or an empty page), not only when
  `next` is absent. An empty-string `next` is falsy too.
- The code has no fallback file name for a name without alphanumeric
  characters: the file is `{norm(name)}_{id}.txt` whatever `norm` returns.
- "Liked Songs" stores the whole user record as its owner. The `owner` accessor
  reads that record's `id`.
- Any exception from a listing is not caught in `__main__.py`, so it ends the
  run. The model reports the first such exception and no playlists.

## Model

| member | source | states |
|---|---|---|
| Strings.LessEqTotalOrder | util.py:51 | The code-point order that `sorted` compares names with is reflexive, antisymmetric, transitive and total. |
| Strings.LessTrichotomous | util.py:51 | For two names, exactly one of less, equal or greater holds. |
| Strings.NotLessIsLessEq | util.py:51 | `sorted` compares only with `<`; "not b < a" is the same as a <= b. |
| Strings.LessIsFirstDifference | util.py:51 | Python's `a < b` on names holds exactly when, at the first position where the two differ, `a` has ended while `b` goes on, or `a` has the smaller code point. |
| Strings.Join | util.py:55-56 | `sep.join` of no pieces is empty and of one piece is that piece. Of several it starts with the first piece and the separator, and ends with the last piece. |
| Strings.SplitJoin | util.py:55-56 | For at least one piece, `sep.join(xs)` can be split back into `xs` when no piece contains the separator and occurrences of the separator cannot overlap. |
| Pagination.Paginate | util.py:7-19 | The pages yielded are the listing's responses from the start, in order, each once. Every page but the last had a truthy `next`. The generator stops after a page whose `next` is falsy, or at the first non-page response, and it re-raises that response if it is an exception. An absent first page yields nothing and raises nothing. |
| Pagination.YieldsIsPaginate | util.py:9-12 | Any outcome that meets the description above is the one `Paginate` returns, so the description determines the behaviour. |
| Pagination.PaginateStopsAfterLastPage | util.py:10-12 | Pages p0..pn, where only pn lacks a truthy `next`, are yielded exactly and in order. Then the generator ends without error, whatever the service would answer after pn. |
| Pagination.PaginateRaisesAfterPrefix | util.py:14-19 | An exception raised after pages that each asked for a successor propagates after exactly those pages, and no later page is yielded. |
| Pagination.Drain | util.py:8-12 | The `while page:` loop yields the same pages and ends the same way as `Paginate`. |
| Sorting.Sort | util.py:51 | The sorted tracks are a permutation of the tracks (same multiset, same length). |
| Sorting.SortIsStableSort | util.py:51 | The result is ordered by name, and tracks that share a name keep their original relative order. |
| Sorting.StableSortUnique | util.py:51 | Two sequences that are both sorted by key and have the same elements for every key, in the same order, are equal. |
| Sorting.StableSortIsSort | playlist.py:34 | Every stable sort of the tracks by name equals `Sort`, so the model matches Python's `sorted`. |
| Sorting.SortedIffNoInversion | util.py:51 | Tracks are in name order exactly when no later name is `<` an earlier one, the only comparison `sorted` makes. |
| Playlists.New | util.py:23-37 | A new playlist holds the record it was built from and no tracks. Its `id`, `name` and `owner` accessors read the record's id, its name and its owner record's id. |
| Playlists.PathJoin | util.py:42 | The POSIX `os.path.join` result ends with the file name. It starts with the directory unless the file name is absolute. |
| Playlists.LogFile | util.py:39-42 | The log path ends with `{norm(name)}_{id}.txt`, hence with `_{id}.txt`. As a string it starts with the directory unless the normalised name starts with `/`. |
| Playlists.LogFileLocation | playlist.py:22-25 | The log path depends only on name and id, not on tracks or owner. Its last component is `{norm(name)}_{id}.txt` when neither part contains `/`. |
| Playlists.LogHeader | util.py:44-48 | The header starts with `{id} - `, ends with ` by {owner}` (the owner record's id), and is 7 characters longer than the three fields together. |
| Playlists.HeaderRoundTrip | playlist.py:27-31 | The header parses back to exactly the playlist's id, name and owner when the id and the owner id contain no space. |
| Playlists.TrackLine | util.py:54-57 | A track line starts with `{id} - {name} by `. With no artists, nothing follows ` by `. |
| Playlists.TrackLineArtists | playlist.py:37-40 | After ` by `, the line lists exactly the album's artist names, in album order and joined by `", "`, when no name contains `", "`. |
| Playlists.LogTracks | util.py:50-52 | There is one line per track, and the lines are a permutation of the tracks' rendered lines. |
| Playlists.LogTracksOrder | playlist.py:33-35 | The lines are the rendering of the unique stable sort by name. Any order that is sorted by name and keeps equal names in fetch order renders to exactly these lines. |
| Sync.FlattenIndex | __main__.py:103-105 | Item j of page k appears right after all items of earlier pages and the items before it on its page. |
| Sync.PlaylistsOf | __main__.py:95-97 | There is one playlist per listed record, in listing order. Each one holds its record unchanged and has no tracks. There is no deduplication and no filtering. |
| Sync.ListPlaylists | __main__.py:94-97 | The `playlists +=` loop over pages builds exactly `PlaylistsOf`. |
| Sync.PlaylistsOfOrder | __main__.py:95-97 | The playlist of item j on listing page k sits at that item's page-order position and is a fresh playlist of that record. |
| Sync.AppendTracks | __main__.py:102-105 | The nested append loops keep the playlist record and extend its tracks with every item's track, page order first and then item order. |
| Sync.FillTracks | __main__.py:102-105 | A playlist's track fetch fails exactly when its listing raises, with that exception. Otherwise it appends the tracks of all yielded pages and keeps the record. |
| Sync.FillAll | __main__.py:100-105 | Fetching every playlist's tracks succeeds exactly when every listing does, and then gives one filled playlist per playlist, in order. Otherwise it reports the error of the first failing playlist. |
| Sync.LikedSongs | __main__.py:109-110 | "Liked Songs" has the user's id as its id, the user (whose id is read) as its owner, the fixed name, and no tracks before filling. |
| Sync.CollectSuccess | __main__.py:93-117 | A successful run holds the listed playlists in listing order, each with exactly its own listing's tracks. Liked Songs comes last, with the saved tracks in page order. |
| Sync.CollectFailure | __main__.py:93-117 | A run fails exactly when the playlist listing, some playlist's track listing or the saved-tracks listing raises. The exception reported is the first in fetch order: the playlist listing's, else the first failing playlist's, else the saved-tracks listing's. |
| Sync.Collect | __main__.py:93-117 | An exception from the playlist listing ends the run with that exception. A successful run holds one playlist per listed record plus one, and the last is "Liked Songs" with the user's id as its id and owner. |
| Sync.FileBody | __main__.py:124-127 | A file body starts with the header followed by two newlines. |
| Sync.FileBodyLines | __main__.py:124-132 | Split at newlines, a body gives the header, an empty line, the `log_tracks` lines in order, and an empty remainder, when no field contains a newline. |
| Scenarios.RoadTripCollect | __main__.py:93-117 | Worked run: the playlist keeps its tracks in fetch order (Zed, Alpha) and is followed by an empty Liked Songs. |
| Scenarios.RoadTripLogFile | util.py:39-42 | With `norm("Road Trip!") = "road_trip"` and an empty directory, the log file is `road_trip_p1.txt`. |
| Scenarios.RoadTripBody | __main__.py:124-132 | The worked playlist's file is its header, a blank line, then `t1 - Alpha by Art1` and `t2 - Zed by Art2`. |

## Left out

- Git operations (init, remote, fetch, pull, branch, commit, push, index diff) are
  external library side effects, and so is the "no diff, no commit" gate built on
  them (`__main__.py:24-58`, `136-143`).
- Spotify OAuth, the token cache file and the `current_user` call (`__main__.py:60-90`)
  are network and file I/O. The authenticated user is an input, `Service.user`.
- The GitHub pull-request lookup, creation and merge (`__main__.py:145-164`) use a
  foreign REST client.
- `snakecase(alphanumcase(.))` comes from a library whose source is not part of
  this model, so the log path takes it as a function parameter `norm`.
  `os.path.join` is modelled with POSIX rules.
- The date-based batch id (`__main__.py:54-55`) depends on the clock and the locale.
- Logging, dotenv loading, the actual file writes and process exit codes are
  plumbing. The logging in `paginated`'s exception handler has no observable
  effect on the pages or on the re-raised exception.
- The generator's laziness is left out. A consumer sees the yielded pages, and
  then maybe the exception, in the order the model returns them. `__main__.py`
  does act on each page as it arrives (extending the playlist list, appending and
  logging tracks), but an exception from a later page is not caught and ends the
  run, so nothing built from the earlier pages is used afterwards. Only the log
  lines written before the exception remain, and logging is left out.
- Only `SpotifyException` is logged. Other exceptions propagate the same way
  without logging, so all of them are modelled as one error type.
- Python's dictionary access raises `KeyError` on a missing field. The model uses
  typed records, so every field is present.
- When the response list runs out, the model treats the next response as "no page".
- Python strings can hold lone surrogate code points; Dafny's `char` cannot.
- Playlists.HeaderRoundTrip: holds only when the id and the owner id contain no
  space. The format itself cannot be parsed back in general.
- Playlists.TrackLineArtists: holds only for at least one artist and for artist
  names without `", "`. Zero artists render as the empty string, covered by
  `TrackLine`.
- Sync.FileBodyLines: holds only when no rendered field contains a newline.
  Otherwise the file has more lines than tracks.
