/** A worked run: one playlist with two tracks fetched out of name order. */
module Scenarios {
  import opened Wrappers
  import opened Pagination
  import opened Playlists
  import opened Sync
  import Strings
  import Sorting

  const Alice := User("alice")
  const RoadTrip := PlaylistMeta("p1", "Road Trip!", Alice)
  const Zed := Track("t2", "Zed", Album([Artist("Art2")]))
  const Alpha := Track("t1", "Alpha", Album([Artist("Art1")]))

  /** The service for the run: one page of playlists, one page of tracks, no
      saved tracks. */
  function RoadTripService(): (r: Service)
  {
    Service(
      Alice,
      [Got(Page([RoadTrip], None))],
      (id: string) => if id == "p1" then [Got(Page([TrackItem(Zed), TrackItem(Alpha)], None))] else [],
      [Got(Page([], None))])
  }

  const Fetched := Playlist(RoadTrip, [Zed, Alpha])
  const HeaderLine := "p1 - Road Trip! by alice"
  const AlphaLine := "t1 - Alpha by Art1"
  const ZedLine := "t2 - Zed by Art2"

  /** The run collects the playlist with its tracks in fetch order, then an
      empty "Liked Songs". */
  lemma RoadTripCollect()
    ensures Collect(RoadTripService()) == Success([
              Fetched,
              Playlist(PlaylistMeta("alice", "Liked Songs", Alice), [])])
  {
    var svc := RoadTripService();
    var listed := [Page([RoadTrip], None)];
    assert Paginate(svc.playlists) == Pages(listed, None);
    assert Flatten(listed) == [RoadTrip] by {
      assert listed[..0] == [];
    }
    var page := Page([TrackItem(Zed), TrackItem(Alpha)], None);
    assert Paginate(svc.playlistTracks("p1")) == Pages([page], None);
    assert Flatten([page]) == page.items by {
      assert [page][..0] == [];
    }
    var empty: seq<Page<TrackItem>> := [Page([], None)];
    assert Paginate(svc.savedTracks) == Pages(empty, None);
    assert Flatten(empty) == [] by {
      assert empty[..0] == [];
    }
    var ps := [New(RoadTrip)];
    assert ListingFor(svc, ps[0]) == [Got(page)];
    assert Paginate([Got(page)]) == Pages([page], None);
    assert TracksOf(page.items) == [Zed, Alpha];
    assert ps[0].tracks + [Zed, Alpha] == [Zed, Alpha];
    assert FillTracks(ps[0], [Got(page)]) == Success(Fetched);
    assert FillTracks(ps[0], ListingFor(svc, ps[0])) == Success(Fetched);
    assert FillAll(svc, ps[1..]) == Success([]);
    assert [Fetched] + [] == [Fetched];
    assert FillAll(svc, ps) == Success([Fetched]);
    assert PlaylistsOf(listed) == ps;
    assert TracksOf(Flatten(empty)) == [];
    assert FillTracks(LikedSongs(Alice), svc.savedTracks)
        == Success(Playlist(PlaylistMeta("alice", "Liked Songs", Alice), []));
    assert [Fetched] + [Playlist(PlaylistMeta("alice", "Liked Songs", Alice), [])]
        == [Fetched, Playlist(PlaylistMeta("alice", "Liked Songs", Alice), [])];
  }

  /** Its log file is `road_trip_p1.txt` when the directory is empty. */
  lemma RoadTripLogFile(norm: string -> string)
    requires norm("Road Trip!") == "road_trip"
    ensures LogFile(norm, "", Fetched) == "road_trip_p1.txt"
  {
  }

  lemma RoadTripSorted()
    ensures Sorting.Sort(Fetched.tracks, TrackName) == [Alpha, Zed]
  {
    assert !Strings.LessEq("Zed", "Alpha");
    assert Sorting.Sort([Alpha], TrackName) == [Alpha];
  }

  lemma RoadTripAlphaLine()
    ensures TrackLine(Alpha) == AlphaLine
  {
    TrackLineOneArtist(Alpha);
    assert "t1" + " - " == "t1 - ";
    assert "t1 - " + "Alpha" == "t1 - Alpha";
    assert "t1 - Alpha" + " by " == "t1 - Alpha by ";
    assert "t1 - Alpha by " + "Art1" == AlphaLine;
  }

  lemma RoadTripZedLine()
    ensures TrackLine(Zed) == ZedLine
  {
    TrackLineOneArtist(Zed);
    assert "t2" + " - " == "t2 - ";
    assert "t2 - " + "Zed" == "t2 - Zed";
    assert "t2 - Zed" + " by " == "t2 - Zed by ";
    assert "t2 - Zed by " + "Art2" == ZedLine;
  }

  lemma RoadTripLogTracks()
    ensures LogTracks(Fetched) == [AlphaLine, ZedLine]
  {
    RoadTripSorted();
    RoadTripAlphaLine();
    RoadTripZedLine();
  }

  lemma RoadTripHeader()
    ensures LogHeader(Fetched) == HeaderLine
  {
    assert LogHeader(Fetched) == "p1" + " - " + "Road Trip!" + " by " + "alice";
    assert "p1" + " - " == "p1 - ";
    assert "p1 - " + "Road Trip!" == "p1 - Road Trip!";
    assert "p1 - Road Trip!" + " by " == "p1 - Road Trip! by ";
    assert "p1 - Road Trip! by " + "alice" == HeaderLine;
  }

  lemma RoadTripTerminated()
    ensures Terminated([AlphaLine, ZedLine]) == AlphaLine + "\n" + ZedLine + "\n"
  {
    var lines := [AlphaLine, ZedLine];
    assert lines[1..] == [ZedLine];
    assert lines[1..][1..] == [];
    var last := ZedLine + "\n";
    assert Terminated(lines[1..]) == last + "";
    assert last + "" == last;
    assert Terminated(lines) == AlphaLine + "\n" + last;
  }

  /** Its log file lists Alpha before Zed, though Zed was fetched first. */
  lemma RoadTripBody()
    ensures FileBody(Fetched) == HeaderLine + "\n\n" + (AlphaLine + "\n" + ZedLine + "\n")
  {
    RoadTripLogTracks();
    RoadTripHeader();
    RoadTripTerminated();
  }
}
