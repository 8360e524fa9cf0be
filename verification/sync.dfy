/** The pure data flow of the sync run: playlists and tracks gathered from the
    paginated listings, the synthetic "Liked Songs" playlist, and the body of
    each playlist's log file. */
module Sync {
  import opened Wrappers
  import opened Strings
  import opened Sorting
  import opened Pagination
  import opened Playlists

  /** An item of a track listing, carrying the track itself. */
  datatype TrackItem = TrackItem(track: Track)

  /** What the remote service answers during one run: the authenticated user, the
      user's playlist listing, each playlist's track listing (by playlist id) and
      the saved-tracks listing. */
  datatype Service = Service(
    user: User,
    playlists: seq<Response<PlaylistMeta>>,
    playlistTracks: string -> seq<Response<TrackItem>>,
    savedTracks: seq<Response<TrackItem>>)

  // ---------------------------------------------------------------------------
  // Concatenating pages

  /** The items of the pages, page after page, each page's items in order. */
  function Flatten<T>(pages: seq<Page<T>>): (r: seq<T>)
  {
    if |pages| == 0 then []
    else Flatten(pages[..|pages| - 1]) + pages[|pages| - 1].items
  }

  lemma {:induction false} FlattenAppend<T>(a: seq<Page<T>>, b: seq<Page<T>>)
    ensures Flatten(a + b) == Flatten(a) + Flatten(b)
    decreases |b|
  {
    if |b| == 0 {
      assert a + b == a;
    } else {
      var c := a + b;
      assert c[..|c| - 1] == a + b[..|b| - 1];
      FlattenAppend(a, b[..|b| - 1]);
    }
  }

  /** Item `j` of page `k` sits right after the items of the pages before page
      `k` and the items before it on its own page, and the flattening is exactly
      as long as the pages before, at and after page `k`: nothing is dropped,
      repeated or reordered. */
  lemma FlattenIndex<T>(pages: seq<Page<T>>, k: nat, j: nat)
    requires k < |pages| && j < |pages[k].items|
    ensures |Flatten(pages[..k])| + j < |Flatten(pages)|
    ensures Flatten(pages)[|Flatten(pages[..k])| + j] == pages[k].items[j]
    ensures |Flatten(pages)| == |Flatten(pages[..k])| + |pages[k].items| + |Flatten(pages[k + 1..])|
  {
    assert pages == pages[..k] + [pages[k]] + pages[k + 1..];
    FlattenAppend(pages[..k] + [pages[k]], pages[k + 1..]);
    FlattenAppend(pages[..k], [pages[k]]);
    assert Flatten([pages[k]]) == pages[k].items by {
      assert [pages[k]][..0] == [];
    }
  }

  // ---------------------------------------------------------------------------
  // Playlists

  /** One fresh playlist per listed record, over every page in order. */
  function PlaylistsOf(pages: seq<Page<PlaylistMeta>>): (r: seq<Playlist>)
    ensures |r| == |Flatten(pages)|
    ensures forall i :: 0 <= i < |r| ==> r[i].meta == Flatten(pages)[i] && r[i].tracks == []
  {
    MapSeq(New, Flatten(pages))
  }

  /** The playlist list is built as the source's loop builds it, `playlists +=`
      the wrapped items of one page at a time. */
  method ListPlaylists(pages: seq<Page<PlaylistMeta>>) returns (playlists: seq<Playlist>)
    ensures playlists == PlaylistsOf(pages)
  {
    playlists := [];
    for k := 0 to |pages|
      invariant playlists == PlaylistsOf(pages[..k])
    {
      var wrapped := MapSeq(New, pages[k].items);
      playlists := playlists + wrapped;
      assert pages[..k + 1][..k] == pages[..k];
      MapSeqAppend(New, Flatten(pages[..k]), pages[k].items);
    }
    assert pages[..|pages|] == pages;
  }

  /** Playlist `j` of listing page `k` is at its page-order position, built from
      its record with no tracks. */
  lemma PlaylistsOfOrder(pages: seq<Page<PlaylistMeta>>, k: nat, j: nat)
    requires k < |pages| && j < |pages[k].items|
    ensures |Flatten(pages[..k])| + j < |PlaylistsOf(pages)|
    ensures PlaylistsOf(pages)[|Flatten(pages[..k])| + j] == New(pages[k].items[j])
  {
    FlattenIndex(pages, k, j);
  }

  /** The tracks carried by listing items, in order. */
  function TracksOf(items: seq<TrackItem>): (r: seq<Track>)
    ensures |r| == |items|
    ensures forall i :: 0 <= i < |items| ==> r[i] == items[i].track
  {
    MapSeq((item: TrackItem) => item.track, items)
  }

  /** Appends the track of every listing item to the playlist, page by page and
      item by item, as nested loops. */
  method AppendTracks(p: Playlist, pages: seq<Page<TrackItem>>) returns (q: Playlist)
    ensures q.meta == p.meta
    ensures q.tracks == p.tracks + TracksOf(Flatten(pages))
  {
    q := p;
    for k := 0 to |pages|
      invariant q.meta == p.meta
      invariant q.tracks == p.tracks + TracksOf(Flatten(pages[..k]))
    {
      var items := pages[k].items;
      assert pages[..k + 1][..k] == pages[..k];
      assert Flatten(pages[..k + 1]) == Flatten(pages[..k]) + items;
      for j := 0 to |items|
        invariant q.meta == p.meta
        invariant q.tracks == p.tracks + TracksOf(Flatten(pages[..k]) + items[..j])
      {
        q := q.(tracks := q.tracks + [items[j].track]);
        assert items[..j + 1] == items[..j] + [items[j]];
      }
      assert items[..|items|] == items;
    }
    assert pages[..|pages|] == pages;
  }

  /** One playlist's tracks fetched through `paginated`: every track of every
      page is appended, or the listing's exception aborts the run. */
  function FillTracks(p: Playlist, listing: seq<Response<TrackItem>>): (r: Result<Playlist, ApiError>)
    ensures r.Failure? <==> Paginate(listing).raised.Some?
    ensures r.Failure? ==> r.error == Paginate(listing).raised.value
    ensures r.Success? ==> r.value.meta == p.meta
    ensures r.Success? ==> r.value.tracks == p.tracks + TracksOf(Flatten(Paginate(listing).yielded))
  {
    var o := Paginate(listing);
    if o.raised.Some? then Failure(o.raised.value)
    else Success(p.(tracks := p.tracks + TracksOf(Flatten(o.yielded))))
  }

  /** The track listing the service returns for playlist `p`. */
  function ListingFor(svc: Service, p: Playlist): (r: seq<Response<TrackItem>>)
  {
    svc.playlistTracks(p.Id())
  }

  /** Every playlist's tracks fetched in list order; the first failing listing
      aborts the loop. */
  function FillAll(svc: Service, ps: seq<Playlist>): (r: Result<seq<Playlist>, ApiError>)
    ensures r.Success? <==> forall i :: 0 <= i < |ps| ==> FillTracks(ps[i], ListingFor(svc, ps[i])).Success?
    ensures r.Success? ==> |r.value| == |ps|
    ensures r.Success? ==> forall i :: 0 <= i < |ps| ==> r.value[i] == FillTracks(ps[i], ListingFor(svc, ps[i])).value
    ensures r.Failure? ==> exists i :: 0 <= i < |ps| && FirstFailure(svc, ps, i) && r.error == FillTracks(ps[i], ListingFor(svc, ps[i])).error
  {
    if |ps| == 0 then Success([])
    else
      assert forall i :: 1 <= i < |ps| ==> ps[i] == ps[1..][i - 1];
      match FillTracks(ps[0], ListingFor(svc, ps[0]))
      case Failure(e) =>
        assert FirstFailure(svc, ps, 0);
        Failure(e)
      case Success(first) =>
        match FillAll(svc, ps[1..])
        case Failure(e) =>
          FirstFailureAfterSuccess(svc, ps, e);
          Failure(e)
        case Success(rest) =>
          Success([first] + rest)
  }

  /** A first failure among the playlists after a successful first one is a first
      failure of the whole list, one position later. */
  lemma FirstFailureAfterSuccess(svc: Service, ps: seq<Playlist>, e: ApiError)
    requires |ps| > 0 && FillTracks(ps[0], ListingFor(svc, ps[0])).Success?
    requires exists i :: 0 <= i < |ps[1..]| && FirstFailure(svc, ps[1..], i)
                         && e == FillTracks(ps[1..][i], ListingFor(svc, ps[1..][i])).error
    ensures exists i :: 0 <= i < |ps| && FirstFailure(svc, ps, i)
                        && e == FillTracks(ps[i], ListingFor(svc, ps[i])).error
  {
    var i :| 0 <= i < |ps[1..]| && FirstFailure(svc, ps[1..], i)
             && e == FillTracks(ps[1..][i], ListingFor(svc, ps[1..][i])).error;
    assert forall j :: 1 <= j < |ps| ==> ps[j] == ps[1..][j - 1];
    assert FirstFailure(svc, ps, i + 1);
  }

  /** Playlist `i` is the first whose track listing fails. */
  ghost predicate FirstFailure(svc: Service, ps: seq<Playlist>, i: nat)
    requires i < |ps|
  {
    && FillTracks(ps[i], ListingFor(svc, ps[i])).Failure?
    && forall j :: 0 <= j < i ==> FillTracks(ps[j], ListingFor(svc, ps[j])).Success?
  }

  /** The personal "Liked Songs" playlist, synthesised from the user record. */
  function LikedSongs(user: User): (p: Playlist)
    ensures p.Id() == user.id && p.Owner() == user.id && p.Name() == "Liked Songs"
    ensures p.tracks == []
  {
    New(PlaylistMeta(user.id, "Liked Songs", user))
  }

  /** The collection step of a run: list the playlists, fetch each one's tracks,
      then synthesise and fill "Liked Songs" and append it last. Any exception
      from a listing aborts the run with that exception. */
  function Collect(svc: Service): (r: Result<seq<Playlist>, ApiError>)
    ensures Paginate(svc.playlists).raised.Some? ==> r == Failure(Paginate(svc.playlists).raised.value)
    ensures r.Success? ==> |r.value| == |Flatten(Paginate(svc.playlists).yielded)| + 1
    ensures r.Success? ==> var liked := r.value[|r.value| - 1];
              liked.Id() == svc.user.id && liked.Name() == "Liked Songs" && liked.Owner() == svc.user.id
  {
    var listed := Paginate(svc.playlists);
    if listed.raised.Some? then Failure(listed.raised.value)
    else
      match FillAll(svc, PlaylistsOf(listed.yielded))
      case Failure(e) => Failure(e)
      case Success(filled) =>
        match FillTracks(LikedSongs(svc.user), svc.savedTracks)
        case Failure(e) => Failure(e)
        case Success(liked) => Success(filled + [liked])
  }

  /** A run that collects successfully holds, in listing order, one playlist per
      listed record with exactly the tracks of that playlist's listing, and after
      them "Liked Songs" with the saved tracks. */
  lemma CollectSuccess(svc: Service)
    requires Collect(svc).Success?
    ensures var listed := Flatten(Paginate(svc.playlists).yielded);
            var r := Collect(svc).value;
            && |r| == |listed| + 1
            && (forall i :: 0 <= i < |listed| ==>
                  && r[i].meta == listed[i]
                  && r[i].tracks == TracksOf(Flatten(Paginate(svc.playlistTracks(listed[i].id)).yielded)))
            && r[|listed|].Id() == svc.user.id
            && r[|listed|].Name() == "Liked Songs"
            && r[|listed|].Owner() == svc.user.id
            && r[|listed|].tracks == TracksOf(Flatten(Paginate(svc.savedTracks).yielded))
  {
  }

  /** A run fails exactly when one of its listings raises, and it reports the
      first exception in fetch order: playlist listing, then each playlist's track
      listing in list order, then the saved tracks. */
  lemma CollectFailure(svc: Service)
    ensures var listed := Paginate(svc.playlists);
            var ps := PlaylistsOf(listed.yielded);
            Collect(svc).Failure? <==>
              || listed.raised.Some?
              || (exists i :: 0 <= i < |ps| && Paginate(ListingFor(svc, ps[i])).raised.Some?)
              || Paginate(svc.savedTracks).raised.Some?
    ensures var listed := Paginate(svc.playlists);
            var ps := PlaylistsOf(listed.yielded);
            && (listed.raised.Some? ==> Collect(svc) == Failure(listed.raised.value))
            && (listed.raised.None? && FillAll(svc, ps).Failure? ==>
                  Collect(svc) == Failure(FillAll(svc, ps).error))
            && (listed.raised.None? && FillAll(svc, ps).Success? && Paginate(svc.savedTracks).raised.Some? ==>
                  Collect(svc) == Failure(Paginate(svc.savedTracks).raised.value))
  {
  }

  // ---------------------------------------------------------------------------
  // Log file body

  /** Each line followed by a newline, concatenated. */
  function Terminated(lines: seq<string>): (r: string)
  {
    if |lines| == 0 then "" else lines[0] + "\n" + Terminated(lines[1..])
  }

  /** What is written to a playlist's log file: the header, a blank line, then
      every track line followed by a newline. */
  function FileBody(p: Playlist): (r: string)
    ensures StartsWith(r, LogHeader(p) + "\n\n")
  {
    LogHeader(p) + "\n\n" + Terminated(LogTracks(p))
  }

  /** The log file body is the `"\n"`-join of header, blank line, track lines and a
      final empty line. */
  lemma {:induction false} TerminatedIsJoin(lines: seq<string>)
    ensures Terminated(lines) == Join(lines + [""], "\n")
    decreases |lines|
  {
    if |lines| > 0 {
      TerminatedIsJoin(lines[1..]);
      assert (lines + [""])[1..] == lines[1..] + [""];
    }
  }

  /** A field is a single line when it holds no newline. */
  predicate SingleLine(s: string)
  {
    '\n' !in s
  }

  /** All fields of a track that end up in its line are single lines. */
  predicate TrackSingleLine(t: Track)
  {
    && SingleLine(t.id)
    && SingleLine(t.name)
    && forall i :: 0 <= i < |t.album.artists| ==> SingleLine(t.album.artists[i].name)
  }

  lemma {:induction false} JoinSingleLine(xs: seq<string>, sep: string)
    requires SingleLine(sep)
    requires forall i :: 0 <= i < |xs| ==> SingleLine(xs[i])
    ensures SingleLine(Join(xs, sep))
    decreases |xs|
  {
    if |xs| > 1 {
      JoinSingleLine(xs[1..], sep);
    }
  }

  lemma TrackLineSingleLine(t: Track)
    requires TrackSingleLine(t)
    ensures SingleLine(TrackLine(t))
  {
    JoinSingleLine(ArtistNames(t), ", ");
  }

  /** A header, a blank line and newline-terminated lines are the newline-join
      of header, empty line, lines and a final empty piece. */
  lemma HeaderAndLinesIsJoin(header: string, lines: seq<string>)
    ensures header + "\n\n" + Terminated(lines) == Join([header, ""] + lines + [""], "\n")
  {
    var all := [header, ""] + lines + [""];
    var rest := lines + [""];
    TerminatedIsJoin(lines);
    assert all[1..] == [""] + rest;
    assert ([""] + rest)[1..] == rest;
    assert Join([""] + rest, "\n") == "" + "\n" + Join(rest, "\n");
    assert Join(all, "\n") == header + "\n" + ("" + "\n" + Join(rest, "\n"));
    assert "" + "\n" + Join(rest, "\n") == "\n" + Join(rest, "\n");
    assert header + "\n" + ("\n" + Join(rest, "\n")) == header + "\n\n" + Join(rest, "\n");
  }

  /** The body is the header, an empty line, the track lines and an empty
      remainder, joined by newlines. */
  lemma FileBodyIsJoin(p: Playlist)
    ensures FileBody(p) == Join([LogHeader(p), ""] + LogTracks(p) + [""], "\n")
  {
    HeaderAndLinesIsJoin(LogHeader(p), LogTracks(p));
  }

  lemma HeaderSingleLine(p: Playlist)
    requires SingleLine(p.Id()) && SingleLine(p.Name()) && SingleLine(p.Owner())
    ensures SingleLine(LogHeader(p))
  {
  }

  lemma LogTracksSingleLine(p: Playlist)
    requires forall i :: 0 <= i < |p.tracks| ==> TrackSingleLine(p.tracks[i])
    ensures forall i :: 0 <= i < |LogTracks(p)| ==> SingleLine(LogTracks(p)[i])
  {
    var sorted := Sort(p.tracks, TrackName);
    forall i | 0 <= i < |LogTracks(p)|
      ensures SingleLine(LogTracks(p)[i])
    {
      var t := sorted[i];
      assert t in multiset(p.tracks);
      TrackLineSingleLine(t);
    }
  }

  /** No piece of a header, a blank line, single lines and an empty remainder
      contains a newline. */
  lemma PiecesNewlineFree(header: string, lines: seq<string>)
    requires SingleLine(header)
    requires forall i :: 0 <= i < |lines| ==> SingleLine(lines[i])
    ensures var all := [header, ""] + lines + [""];
            forall i :: 0 <= i < |all| ==> !Contains(all[i], "\n")
  {
    var all := [header, ""] + lines + [""];
    forall i | 0 <= i < |all|
      ensures !Contains(all[i], "\n")
    {
      if 2 <= i < |all| - 1 {
        assert all[i] == lines[i - 2];
      }
      AbsentCharNotContained(all[i], '\n');
    }
  }

  /** Reading the log file back line by line gives the header, an empty line,
      one line per track in `log_tracks()` order, and the empty remainder after
      the final newline, provided no rendered field contains a newline. */
  lemma FileBodyLines(p: Playlist)
    requires SingleLine(p.Id()) && SingleLine(p.Name()) && SingleLine(p.Owner())
    requires forall i :: 0 <= i < |p.tracks| ==> TrackSingleLine(p.tracks[i])
    ensures Split(FileBody(p), "\n") == [LogHeader(p), ""] + LogTracks(p) + [""]
  {
    var all := [LogHeader(p), ""] + LogTracks(p) + [""];
    FileBodyIsJoin(p);
    HeaderSingleLine(p);
    LogTracksSingleLine(p);
    PiecesNewlineFree(LogHeader(p), LogTracks(p));
    SingleCharBorderFree('\n');
    SplitJoin(all, "\n");
  }
}
