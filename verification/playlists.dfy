/** The `Playlist` value object and its text rendering. */
module Playlists {
  import opened Wrappers
  import opened Strings
  import opened Sorting

  datatype Artist = Artist(name: string)

  datatype Album = Album(artists: seq<Artist>)

  /** A track record as the remote service returns it; only these fields are read. */
  datatype Track = Track(id: string, name: string, album: Album)

  /** A user record; a playlist's `owner` field holds one. */
  datatype User = User(id: string)

  /** The playlist metadata record a `Playlist` is built from. */
  datatype PlaylistMeta = PlaylistMeta(id: string, name: string, owner: User)

  /** A playlist: its metadata record and the tracks appended to it so far. */
  datatype Playlist = Playlist(meta: PlaylistMeta, tracks: seq<Track>)
  {
    function Id(): (r: string) { meta.id }

    function Name(): (r: string) { meta.name }

    /** The owner property reads the `id` of the owner record. */
    function Owner(): (r: string) { meta.owner.id }
  }

  /** A freshly constructed playlist: the record as given and no tracks yet. */
  function New(meta: PlaylistMeta): (r: Playlist)
    ensures r.meta == meta && r.tracks == []
    ensures r.Id() == meta.id && r.Name() == meta.name && r.Owner() == meta.owner.id
  {
    Playlist(meta, [])
  }

  /** The sort key `log_tracks` uses. */
  function TrackName(t: Track): (r: string)
  {
    t.name
  }

  // ---------------------------------------------------------------------------
  // Log file path

  /** `os.path.join(a, b)` on POSIX: an absolute `b` replaces `a`; otherwise a
      single `/` is inserted unless `a` is empty or already ends with one. */
  function PathJoin(a: string, b: string): (r: string)
    ensures EndsWith(r, b)
    ensures (|b| == 0 || b[0] != '/') ==> StartsWith(r, a)
  {
    if |b| > 0 && b[0] == '/' then b
    else if |a| == 0 || a[|a| - 1] == '/' then a + b
    else a + "/" + b
  }

  /** `os.path.basename`: everything after the last `/`. */
  function Basename(s: string): (r: string)
    ensures EndsWith(s, r)
    ensures '/' !in r
  {
    if |s| == 0 then ""
    else if s[|s| - 1] == '/' then ""
    else Basename(s[..|s| - 1]) + [s[|s| - 1]]
  }

  /** The file name part of a log path, before it is joined to the directory. */
  function LogFileName(norm: string -> string, p: Playlist): (r: string)
  {
    norm(p.Name()) + "_" + p.Id() + ".txt"
  }

  /** `logfile(path)`: the playlist's log file under directory `dir`. `norm` is
      the filename normalisation `snakecase(alphanumcase(.))`, taken as given. */
  function LogFile(norm: string -> string, dir: string, p: Playlist): (r: string)
    ensures EndsWith(r, norm(p.Name()) + "_" + p.Id() + ".txt")
    ensures EndsWith(r, "_" + p.Id() + ".txt")
    ensures (|norm(p.Name())| == 0 || norm(p.Name())[0] != '/') ==> StartsWith(r, dir)
  {
    var file := LogFileName(norm, p);
    assert file == norm(p.Name()) + ("_" + p.Id() + ".txt");
    PathJoin(dir, file)
  }

  /** Gluing a `/`-free name after a directory prefix leaves it as the last component. */
  lemma {:induction false} BasenameAfterSlash(x: string, b: string)
    requires |x| == 0 || x[|x| - 1] == '/'
    requires '/' !in b
    ensures Basename(x + b) == b
    decreases |b|
  {
    if |b| == 0 {
      assert x + b == x;
    } else {
      var s, b', c := x + b, b[..|b| - 1], b[|b| - 1];
      assert c in b;
      assert s[|s| - 1] == c;
      assert s[..|s| - 1] == x + b';
      assert Basename(s) == Basename(x + b') + [c];
      assert '/' !in b' by {
        assert b == b' + [c];
      }
      BasenameAfterSlash(x, b');
      assert b == b' + [c];
    }
  }

  /** The log path depends on the playlist only through its name and id, and when
      neither the normalised name nor the id contains `/` the file sits directly
      in `dir` under the name `{norm(name)}_{id}.txt`. */
  lemma LogFileLocation(norm: string -> string, dir: string, p: Playlist, q: Playlist)
    requires p.Name() == q.Name() && p.Id() == q.Id()
    ensures LogFile(norm, dir, p) == LogFile(norm, dir, q)
    ensures '/' !in norm(p.Name()) && '/' !in p.Id() ==>
              Basename(LogFile(norm, dir, p)) == norm(p.Name()) + "_" + p.Id() + ".txt"
  {
    var file := LogFileName(norm, p);
    if '/' !in norm(p.Name()) && '/' !in p.Id() {
      assert '/' !in file;
      if |dir| == 0 || dir[|dir| - 1] == '/' {
        BasenameAfterSlash(dir, file);
      } else {
        assert dir + "/" + file == (dir + "/") + file;
        BasenameAfterSlash(dir + "/", file);
      }
    }
  }

  // ---------------------------------------------------------------------------
  // Header

  /** The three fields a header line shows. */
  datatype Header = Header(id: string, name: string, owner: string)

  /** `log_header()`: `"{id} - {name} by {owner}"`. */
  function LogHeader(p: Playlist): (r: string)
    ensures StartsWith(r, p.Id() + " - ")
    ensures EndsWith(r, " by " + p.Owner())
    ensures |r| == |p.Id()| + |p.Name()| + |p.Owner()| + 7
  {
    var r := p.Id() + " - " + p.Name() + " by " + p.Owner();
    assert r == (p.Id() + " - ") + p.Name() + (" by " + p.Owner());
    r
  }

  /** Reads a header line back: the id runs to the first `" - "`, the owner
      starts after the last `" by "`, and the name is what lies between. */
  function ParseHeader(h: string): (r: Option<Header>)
    ensures r.Some? ==> h == r.value.id + " - " + r.value.name + " by " + r.value.owner
  {
    match Find(h, " - ", 0)
    case None => None
    case Some(i) =>
      match FindLast(h, " by ", |h|)
      case None => None
      case Some(j) =>
        if i + 3 <= j then
          var parsed := Header(h[..i], h[i + 3..j], h[j + 4..]);
          assert h == h[..i] + h[i..i + 3] + h[i + 3..j] + h[j..j + 4] + h[j + 4..];
          Some(parsed)
        else None
  }

  /** A space-free id is followed by the first `" - "` of the line. */
  lemma FirstDashAfterId(id: string, rest: string)
    requires ' ' !in id
    ensures Find(id + " - " + rest, " - ", 0) == Some(|id|)
  {
    var h := id + " - " + rest;
    assert h[|id|..|id| + 3] == " - ";
    assert OccursAt(h, " - ", |id|);
    forall k: nat | k < |id|
      ensures !OccursAt(h, " - ", k)
    {
      assert h[k] == id[k];
    }
  }

  /** A space-free owner id is preceded by the last `" by "` of the line. */
  lemma LastByBeforeOwner(prefix: string, owner: string)
    requires ' ' !in owner
    ensures var h := prefix + " by " + owner;
            FindLast(h, " by ", |h|) == Some(|prefix|)
  {
    var h := prefix + " by " + owner;
    var j := |prefix|;
    assert h[j..j + 4] == " by ";
    assert OccursAt(h, " by ", j);
    forall k: nat | j < k <= |h|
      ensures !OccursAt(h, " by ", k)
    {
      if k + 4 <= |h| {
        assert h[k + 3] == owner[k + 3 - (j + 4)];
        assert h[k..k + 4][3] == h[k + 3];
      }
    }
  }

  /** The header determines the playlist's id, name and owner whenever the id and
      the owner id contain no space (identifiers issued by the service never do;
      names may contain anything). */
  lemma HeaderRoundTrip(p: Playlist)
    requires ' ' !in p.Id() && ' ' !in p.Owner()
    ensures ParseHeader(LogHeader(p)) == Some(Header(p.Id(), p.Name(), p.Owner()))
  {
    ParseFormatted(p.Id(), p.Name(), p.Owner());
  }

  /** Parsing a formatted header gives back its three fields. */
  lemma ParseFormatted(id: string, name: string, owner: string)
    requires ' ' !in id && ' ' !in owner
    ensures ParseHeader(id + " - " + name + " by " + owner) == Some(Header(id, name, owner))
  {
    var h := id + " - " + name + " by " + owner;
    var i, j := |id|, |id| + 3 + |name|;
    HeaderSeparatorsFound(id, name, owner);
    ParseAt(h, i, j);
    FormattedFields(id, name, owner);
  }

  /** In a formatted header with space-free id and owner, the search finds the
      separators that the formatting put there. */
  lemma HeaderSeparatorsFound(id: string, name: string, owner: string)
    requires ' ' !in id && ' ' !in owner
    ensures var h := id + " - " + name + " by " + owner;
            Find(h, " - ", 0) == Some(|id|) && FindLast(h, " by ", |h|) == Some(|id| + 3 + |name|)
  {
    var h := id + " - " + name + " by " + owner;
    assert h == id + " - " + (name + " by " + owner);
    FirstDashAfterId(id, name + " by " + owner);
    LastByBeforeOwner(id + " - " + name, owner);
  }

  /** The three fields sit at fixed offsets of a formatted header. */
  lemma FormattedFields(id: string, name: string, owner: string)
    ensures var h := id + " - " + name + " by " + owner;
            var i, j := |id|, |id| + 3 + |name|;
            h[..i] == id && h[i + 3..j] == name && h[j + 4..] == owner
  {
    var h := id + " - " + name + " by " + owner;
    var i, j := |id|, |id| + 3 + |name|;
    assert h[..i] == id by {
      assert h == id + (" - " + name + " by " + owner);
    }
    assert h[i + 3..j] == name by {
      assert h == (id + " - ") + name + (" by " + owner);
    }
  }

  /** Once the first `" - "` and the last `" by "` are located, parsing cuts the
      line at them. */
  lemma ParseAt(h: string, i: nat, j: nat)
    requires Find(h, " - ", 0) == Some(i) && FindLast(h, " by ", |h|) == Some(j) && i + 3 <= j
    ensures ParseHeader(h) == Some(Header(h[..i], h[i + 3..j], h[j + 4..]))
  {
  }

  // ---------------------------------------------------------------------------
  // Track lines

  /** The artist names of the track's album, in album order. */
  function ArtistNames(t: Track): (r: seq<string>)
    ensures |r| == |t.album.artists|
    ensures forall i :: 0 <= i < |r| ==> r[i] == t.album.artists[i].name
  {
    seq(|t.album.artists|, i requires 0 <= i < |t.album.artists| => t.album.artists[i].name)
  }

  /** `_log_track(track)`: `"{id} - {name} by {artists}"`, the artists' names
      joined by `", "`. */
  function TrackLine(t: Track): (r: string)
    ensures StartsWith(r, t.id + " - " + t.name + " by ")
    ensures |t.album.artists| == 0 ==> r == t.id + " - " + t.name + " by "
  {
    t.id + " - " + t.name + " by " + Join(ArtistNames(t), ", ")
  }

  /** A track with a single album artist names just that artist. */
  lemma TrackLineOneArtist(t: Track)
    requires |t.album.artists| == 1
    ensures TrackLine(t) == t.id + " - " + t.name + " by " + t.album.artists[0].name
  {
    assert ArtistNames(t) == [t.album.artists[0].name];
  }

  /** The artists part of a track line lists exactly the album's artists, in album
      order, provided no artist name itself contains `", "`. */
  lemma TrackLineArtists(t: Track)
    requires |t.album.artists| > 0
    requires forall i :: 0 <= i < |t.album.artists| ==> !Contains(t.album.artists[i].name, ", ")
    ensures var prefix := t.id + " - " + t.name + " by ";
            Split(TrackLine(t)[|prefix|..], ", ") == ArtistNames(t)
  {
    var prefix := t.id + " - " + t.name + " by ";
    var artists := Join(ArtistNames(t), ", ");
    assert TrackLine(t)[|prefix|..] == artists;
    CommaSpaceBorderFree();
    SplitJoin(ArtistNames(t), ", ");
  }

  /** Each track rendered, in the given order. */
  function Lines(ts: seq<Track>): (r: seq<string>)
    ensures |r| == |ts|
    ensures forall i :: 0 <= i < |ts| ==> r[i] == TrackLine(ts[i])
  {
    MapSeq(TrackLine, ts)
  }

  /** `log_tracks()`: the track lines in ascending order of track name, tracks of
      equal name in the order they were appended (Python's `sorted` is stable). */
  function LogTracks(p: Playlist): (r: seq<string>)
    ensures |r| == |p.tracks|
    ensures multiset(r) == multiset(Lines(p.tracks))
  {
    var sorted := Sort(p.tracks, TrackName);
    MapPermutation(TrackLine, sorted, p.tracks);
    Lines(sorted)
  }

  /** The lines are those of the unique stable sort of the tracks by name: any
      ordering of the tracks that is sorted by name and keeps equal-named tracks
      in their original order renders to exactly `log_tracks()`. */
  lemma LogTracksOrder(p: Playlist)
    ensures forall ts :: IsStableSortOf(ts, p.tracks, TrackName) ==> LogTracks(p) == Lines(ts)
    ensures exists ts :: IsStableSortOf(ts, p.tracks, TrackName) && LogTracks(p) == Lines(ts)
  {
    SortIsStableSort(p.tracks, TrackName);
    forall ts | IsStableSortOf(ts, p.tracks, TrackName)
      ensures LogTracks(p) == Lines(ts)
    {
      StableSortIsSort(ts, p.tracks, TrackName);
    }
  }
}
