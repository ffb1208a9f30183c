/**
 * The comparison engine: it flags each row of the history-based and the
 * preference-based recommendation lists with catalogue membership and its
 * artist's genres, computes diversity metrics for each list, and measures
 * the overlap between the two lists. Reading and writing the CSV and JSON
 * files is outside the model; tables are sequences of rows whose missing
 * cells are `None`.
 */
module CompareRecs {
  import opened Collections
  import opened Text
  import opened Ranking

  // ------------------------------------------------------------ genre map

  /** One row of the raw artists table. */
  datatype ArtistEntry = ArtistEntry(artistId: Option<string>, genres: Option<string>)

  /** `str(v)` of a cell: a missing cell is NaN, which prints as `nan`. */
  function CellText(o: Option<string>): string
  {
    match o
    case None => "nan"
    case Some(s) => s
  }

  /**
   * The genres of one artists row: none for a missing or blank cell,
   * otherwise the trimmed, non-blank comma-separated pieces that are not
   * `nan` in any letter case.
   */
  function ParseGenres(g: Option<string>): (r: seq<string>)
    ensures forall k :: 0 <= k < |r| ==> Token(r[k]) && ',' !in r[k] && !IsNan(r[k])
    ensures g.None? ==> r == []
    ensures g.Some? && Blank(g.value) ==> r == []
  {
    match g
    case None => []
    case Some(s) => ParseList(s, true)
  }

  /**
   * A present cell: its comma pieces, stripped, in their order, and no
   * piece is lost that strips to a non-blank token other than `nan`.
   */
  lemma ParseGenresPieces(s: string)
    ensures IsSubseq(ParseGenres(Some(s)), StripAll(Split(s, ',')))
    ensures forall k :: 0 <= k < |Split(s, ',')| && Strip(Split(s, ',')[k]) != [] && !IsNan(Strip(Split(s, ',')[k])) ==>
      Strip(Split(s, ',')[k]) in ParseGenres(Some(s))
  {
    ParseListPieces(s, true);
  }

  /**
   * A dictionary filled row by row with `d[str(artist_id)] = f(genres)`: a
   * later row of an id overwrites an earlier one.
   */
  function MapBy<V>(rows: seq<ArtistEntry>, f: Option<string> -> V): map<string, V>
  {
    if rows == [] then map[]
    else
      var last := rows[|rows| - 1];
      MapBy(rows[..|rows| - 1], f)[CellText(last.artistId) := f(last.genres)]
  }

  /** The map `genres_map_from_artists` builds. */
  function GenreMapOf(rows: seq<ArtistEntry>): map<string, seq<string>>
  {
    MapBy(rows, ParseGenres)
  }

  /** `genres_map_from_artists`: the loop that fills `gm`. */
  method GenresMap(rows: seq<ArtistEntry>) returns (gm: map<string, seq<string>>)
    ensures gm == GenreMapOf(rows)
  {
    gm := map[];
    var i := 0;
    while i < |rows|
      invariant 0 <= i <= |rows|
      invariant gm == GenreMapOf(rows[..i])
    {
      assert rows[..i + 1][..i] == rows[..i];
      gm := gm[CellText(rows[i].artistId) := ParseGenres(rows[i].genres)];
      i := i + 1;
    }
    assert rows[..i] == rows;
  }

  function IdsOf(rows: seq<ArtistEntry>): set<string>
  {
    set i | 0 <= i < |rows| :: CellText(rows[i].artistId)
  }

  /** Row `i` carries `id`, and no later row does. */
  ghost predicate LastCarrier(rows: seq<ArtistEntry>, id: string, i: int)
  {
    0 <= i < |rows| && CellText(rows[i].artistId) == id
    && forall j :: i < j < |rows| ==> CellText(rows[j].artistId) != id
  }

  /** `gs` is the genre list of the last row that carries `id`. */
  ghost predicate FromLastRow(rows: seq<ArtistEntry>, id: string, gs: seq<string>)
  {
    exists i :: LastCarrier(rows, id, i) && gs == ParseGenres(rows[i].genres)
  }

  /** The map has one entry per artist id of the table, holding the genres of that id's last row. */
  lemma GenreMapSpec(rows: seq<ArtistEntry>)
    ensures GenreMapOf(rows).Keys == IdsOf(rows)
    ensures forall id :: id in GenreMapOf(rows) ==> FromLastRow(rows, id, GenreMapOf(rows)[id])
  {
    GenreMapKeys(rows, ParseGenres);
    forall id | id in GenreMapOf(rows)
      ensures FromLastRow(rows, id, GenreMapOf(rows)[id])
    {
      var i := GenreMapLastAt(rows, ParseGenres, id);
    }
  }

  lemma {:induction false} GenreMapKeys<V>(rows: seq<ArtistEntry>, f: Option<string> -> V)
    ensures MapBy(rows, f).Keys == IdsOf(rows)
  {
    if rows != [] {
      var pre := rows[..|rows| - 1];
      var lid := CellText(rows[|rows| - 1].artistId);
      GenreMapKeys(pre, f);
      forall x | x in IdsOf(rows)
        ensures x in IdsOf(pre) + {lid}
      {
        var i :| 0 <= i < |rows| && CellText(rows[i].artistId) == x;
        if i < |pre| {
          assert CellText(pre[i].artistId) == x;
        }
      }
      forall x | x in IdsOf(pre)
        ensures x in IdsOf(rows)
      {
        var i :| 0 <= i < |pre| && CellText(pre[i].artistId) == x;
        assert rows[i] == pre[i];
      }
      assert IdsOf(rows) == IdsOf(pre) + {lid};
    }
  }

  /** The row whose value the map holds for `id`: the last one that carries it. */
  lemma {:induction false} GenreMapLastAt<V>(rows: seq<ArtistEntry>, f: Option<string> -> V, id: string) returns (i: nat)
    requires id in MapBy(rows, f)
    ensures LastCarrier(rows, id, i) && MapBy(rows, f)[id] == f(rows[i].genres)
  {
    var pre := rows[..|rows| - 1];
    if id == CellText(rows[|rows| - 1].artistId) {
      i := |pre|;
    } else {
      i := GenreMapLastAt(pre, f, id);
      LastCarrierPrefix(rows, id, i);
    }
  }

  /** A last carrier of `id` before the final row stays one when that row has another id. */
  lemma LastCarrierPrefix(rows: seq<ArtistEntry>, id: string, i: int)
    requires rows != [] && CellText(rows[|rows| - 1].artistId) != id
    requires LastCarrier(rows[..|rows| - 1], id, i)
    ensures LastCarrier(rows, id, i) && rows[i] == rows[..|rows| - 1][i]
  {
    var pre := rows[..|rows| - 1];
    forall j | i < j < |rows|
      ensures CellText(rows[j].artistId) != id
    {
      if j < |pre| {
        assert rows[j] == pre[j];
      }
    }
  }

  /** The clean form of a genre list: trimmed, non-blank tokens without commas, none of them `nan`. */
  ghost predicate CleanGenres(gs: seq<string>)
  {
    forall k :: 0 <= k < |gs| ==> Token(gs[k]) && ',' !in gs[k] && !IsNan(gs[k])
  }

  lemma GenreMapClean(rows: seq<ArtistEntry>)
    ensures forall id :: id in GenreMapOf(rows) ==> CleanGenres(GenreMapOf(rows)[id])
  {
    forall id | id in GenreMapOf(rows)
      ensures CleanGenres(GenreMapOf(rows)[id])
    {
      var i := GenreMapLastAt(rows, ParseGenres, id);
    }
  }

  // ---------------------------------------------------------------- flags

  /** One row of a recommendation list as read back from its CSV file. */
  datatype RecRow = RecRow(
    trackId: Option<string>,
    name: Option<string>,
    artistId: Option<string>,
    artistName: Option<string>,
    album: Option<string>,
    popularity: Option<int>,
    source: Option<string>)

  /**
   * A flagged row: the list it belongs to, the original row, its track and
   * artist ids as text, whether the user's catalogue holds the track, and
   * the artist's genres joined with `", "`.
   */
  datatype Flagged = Flagged(which: string, row: RecRow, trackId: string, artistId: string, inCatalog: bool, genresJoin: string)

  /** `gmap.get(a, [])`. */
  function Lookup(gmap: map<string, seq<string>>, a: string): seq<string>
  {
    if a in gmap then gmap[a] else []
  }

  function Flag(which: string, seen: set<string>, gmap: map<string, seq<string>>, r: RecRow): Flagged
  {
    var tid := CellText(r.trackId);
    var aid := CellText(r.artistId);
    Flagged(which, r, tid, aid, tid in seen, Join(Lookup(gmap, aid), ", "))
  }

  /**
   * `attach_flags`: every row, in order, tagged with the list name, its ids
   * as text, catalogue membership and the joined genres of its artist
   * (empty for an unknown artist).
   */
  function AttachFlags(rows: seq<RecRow>, which: string, seen: set<string>, gmap: map<string, seq<string>>): (r: seq<Flagged>)
    ensures |r| == |rows|
    ensures forall i :: 0 <= i < |rows| ==>
      r[i].row == rows[i] && r[i].which == which
      && r[i].trackId == CellText(rows[i].trackId) && r[i].artistId == CellText(rows[i].artistId)
    ensures forall i :: 0 <= i < |rows| ==> (r[i].inCatalog <==> CellText(rows[i].trackId) in seen)
    ensures forall i :: 0 <= i < |rows| ==> r[i].genresJoin == Join(Lookup(gmap, r[i].artistId), ", ")
    ensures forall i :: 0 <= i < |rows| && r[i].artistId !in gmap ==> r[i].genresJoin == ""
  {
    seq(|rows|, i requires 0 <= i < |rows| => Flag(which, seen, gmap, rows[i]))
  }

  // ------------------------------------------------------------ diversity

  /** The genres `diversity_metrics` reads back from one `genres_join` cell; an empty cell is skipped. */
  function JoinedGenres(s: string): seq<string>
  {
    if s == "" then [] else CleanTokens(Split(s, ','), true)
  }

  /**
   * The genre column round-trips: reading back the joined genres of a
   * flagged row gives exactly the genre list of its artist.
   */
  lemma FlagGenres(rows: seq<RecRow>, which: string, seen: set<string>, artists: seq<ArtistEntry>, i: nat)
    requires i < |rows|
    ensures var f := AttachFlags(rows, which, seen, GenreMapOf(artists));
      JoinedGenres(f[i].genresJoin) == Lookup(GenreMapOf(artists), f[i].artistId)
  {
    var gmap := GenreMapOf(artists);
    var f := AttachFlags(rows, which, seen, gmap);
    var gs := Lookup(gmap, f[i].artistId);
    GenreMapClean(artists);
    assert CleanGenres(gs);
    CleanTokensOfJoin(gs);
    if gs != [] {
      JoinNonEmpty(gs);
    }
  }

  /** The join of a non-empty list of tokens is not empty. */
  lemma JoinNonEmpty(ts: seq<string>)
    requires ts != [] && Token(ts[0])
    ensures Join(ts, ", ") != ""
  {
    if |ts| > 1 {
      assert Join(ts, ", ")[0] == ts[0][0];
    }
  }

  /** `genres_all`: the read-back genres of every row, in row order, with repetitions. */
  function AllGenresOf(rows: seq<Flagged>): seq<string>
  {
    if rows == [] then []
    else AllGenresOf(rows[..|rows| - 1]) + JoinedGenres(rows[|rows| - 1].genresJoin)
  }

  /** The genre lists of the rows' artists, concatenated in row order. */
  function LookedUp(rows: seq<RecRow>, gmap: map<string, seq<string>>): seq<string>
  {
    if rows == [] then []
    else LookedUp(rows[..|rows| - 1], gmap) + Lookup(gmap, CellText(rows[|rows| - 1].artistId))
  }

  /** The genres a list's metrics count are exactly the genres of its rows' artists. */
  lemma {:induction false} AllGenresOfFlags(rows: seq<RecRow>, which: string, seen: set<string>, artists: seq<ArtistEntry>)
    ensures AllGenresOf(AttachFlags(rows, which, seen, GenreMapOf(artists))) == LookedUp(rows, GenreMapOf(artists))
  {
    if rows != [] {
      var gmap := GenreMapOf(artists);
      var pre := rows[..|rows| - 1];
      var f := AttachFlags(rows, which, seen, gmap);
      AllGenresOfFlags(pre, which, seen, artists);
      assert f[..|rows| - 1] == AttachFlags(pre, which, seen, gmap);
      FlagGenres(rows, which, seen, artists, |rows| - 1);
    }
  }

  function ArtistIdsOf(rows: seq<Flagged>): (r: seq<string>)
    ensures |r| == |rows|
    ensures forall i :: 0 <= i < |rows| ==> r[i] == rows[i].artistId
  {
    seq(|rows|, i requires 0 <= i < |rows| => rows[i].artistId)
  }

  /** `artist_name.fillna("")`. */
  function NameText(o: Option<string>): string
  {
    match o
    case None => ""
    case Some(s) => s
  }

  function ArtistNamesOf(rows: seq<Flagged>): (r: seq<string>)
    ensures |r| == |rows|
    ensures forall i :: 0 <= i < |rows| ==> r[i] == NameText(rows[i].row.artistName)
  {
    seq(|rows|, i requires 0 <= i < |rows| => NameText(rows[i].row.artistName))
  }

  datatype Metrics = Metrics(
    tracks: nat,
    uniqueArtists: nat,
    uniqueGenres: nat,
    topArtists: seq<(string, int)>,
    topGenres: seq<(string, int)>)

  /** What `diversity_metrics` returns for a flagged list. */
  ghost function MetricsOf(rows: seq<Flagged>): Metrics
  {
    if rows == [] then Metrics(0, 0, 0, [], [])
    else
      var genres := AllGenresOf(rows);
      var names := ArtistNamesOf(rows);
      CountOfSpec(genres);
      CountOfSpec(names);
      Metrics(|rows|, |Distinct(ArtistIdsOf(rows))|, |CountOf(genres).keys|,
              MostCommon(CountOf(names), 5), MostCommon(CountOf(genres), 5))
  }

  /** `diversity_metrics`: the early return for an empty list and the loop that collects `genres_all`. */
  method DiversityMetrics(rows: seq<Flagged>) returns (m: Metrics)
    ensures m == MetricsOf(rows)
    ensures rows == [] ==> m == Metrics(0, 0, 0, [], [])
  {
    if rows == [] {
      return Metrics(0, 0, 0, [], []);
    }
    var uniqueArtists := |Distinct(ArtistIdsOf(rows))|;
    var genresAll: seq<string> := [];
    var i := 0;
    while i < |rows|
      invariant 0 <= i <= |rows|
      invariant genresAll == AllGenresOf(rows[..i])
    {
      assert rows[..i + 1][..i] == rows[..i];
      genresAll := genresAll + JoinedGenres(rows[i].genresJoin);
      i := i + 1;
    }
    assert rows[..i] == rows;
    var names := ArtistNamesOf(rows);
    CountOfSpec(genresAll);
    CountOfSpec(names);
    var cGen := CountOf(genresAll);
    var cArt := CountOf(names);
    m := Metrics(|rows|, uniqueArtists, |cGen.keys|, MostCommon(cArt, 5), MostCommon(cGen, 5));
  }

  /**
   * The counts: `tracks` is the list length, `unique_artists` the number of
   * distinct artist ids, `unique_genres` the number of distinct genres.
   */
  lemma MetricsCounts(rows: seq<Flagged>)
    ensures MetricsOf(rows).tracks == |rows|
    ensures MetricsOf(rows).uniqueArtists == |Distinct(ArtistIdsOf(rows))|
    ensures MetricsOf(rows).uniqueGenres == |Distinct(AllGenresOf(rows))|
    ensures MetricsOf(rows).uniqueArtists <= |rows|
  {
    CountOfSpec(AllGenresOf(rows));
    DistinctNoLonger(ArtistIdsOf(rows));
  }

  /**
   * The top-5 rankings: artists are ranked by how often their name occurs,
   * genres by how often they occur among the rows' genres; each entry
   * carries its count, counts do not increase, entries are distinct, and no
   * unlisted name or genre is more frequent than a listed one.
   */
  lemma MetricsTopArtists(rows: seq<Flagged>)
    ensures var top := MetricsOf(rows).topArtists;
      && |top| <= 5
      && (forall i :: 0 <= i < |top| ==> top[i].1 == Occurrences(ArtistNamesOf(rows), top[i].0) > 0)
      && (forall i, j :: 0 <= i < j < |top| ==> top[i].1 >= top[j].1)
      && (forall i, j :: 0 <= i < j < |top| ==> top[i].0 != top[j].0)
      && (forall a, i :: 0 <= i < |top| && a !in Firsts(top) ==> Occurrences(ArtistNamesOf(rows), a) <= top[i].1)
  {
    if rows != [] {
      var names := ArtistNamesOf(rows);
      MostFrequent(names, 5);
      assert MetricsOf(rows).topArtists == MostCommon(CountOf(names), 5);
    }
  }

  lemma MetricsTopGenres(rows: seq<Flagged>)
    ensures var top := MetricsOf(rows).topGenres;
      && |top| <= 5
      && (forall i :: 0 <= i < |top| ==> top[i].1 == Occurrences(AllGenresOf(rows), top[i].0) > 0)
      && (forall i, j :: 0 <= i < j < |top| ==> top[i].1 >= top[j].1)
      && (forall i, j :: 0 <= i < j < |top| ==> top[i].0 != top[j].0)
      && (forall g, i :: 0 <= i < |top| && g !in Firsts(top) ==> Occurrences(AllGenresOf(rows), g) <= top[i].1)
  {
    if rows != [] {
      var genres := AllGenresOf(rows);
      MostFrequent(genres, 5);
      assert MetricsOf(rows).topGenres == MostCommon(CountOf(genres), 5);
    }
  }

  // -------------------------------------------------------------- summary

  /** `set(catalog["track_id"].dropna().astype(str))`. */
  function Owned(catalog: seq<Option<string>>): set<string>
  {
    set i | 0 <= i < |catalog| && catalog[i].Some? :: catalog[i].value
  }

  /** `(~in_catalog).sum()`: the rows the user does not own yet. */
  function NewCount(rows: seq<Flagged>): nat
  {
    if rows == [] then 0
    else NewCount(rows[..|rows| - 1]) + (if rows[|rows| - 1].inCatalog then 0 else 1)
  }

  /** The new-to-user count is the number of positions whose row is not in the catalogue. */
  lemma {:induction false} NewCountSpec(rows: seq<Flagged>)
    ensures NewCount(rows) == |set i | 0 <= i < |rows| && !rows[i].inCatalog|
    ensures NewCount(rows) <= |rows|
  {
    if rows != [] {
      var pre := rows[..|rows| - 1];
      NewCountSpec(pre);
      var a := set i | 0 <= i < |pre| && !pre[i].inCatalog;
      var b := set i | 0 <= i < |rows| && !rows[i].inCatalog;
      if rows[|rows| - 1].inCatalog {
        assert b == a;
      } else {
        assert b == a + {|pre|};
      }
    }
  }

  /** `(count / max(1, total)) if total else 0.0`. */
  function Ratio(count: nat, total: nat): real
  {
    if total == 0 then 0.0 else (count as real) / (total as real)
  }

  lemma RatioBounds(count: nat, total: nat)
    requires count <= total
    ensures 0.0 <= Ratio(count, total) <= 1.0
    ensures total == 0 ==> Ratio(count, total) == 0.0
    ensures 0 < total && count == total ==> Ratio(count, total) == 1.0
  {
  }

  /** `set(f["track_id"])`. */
  function TrackIdSet(rows: seq<Flagged>): set<string>
  {
    set i | 0 <= i < |rows| :: rows[i].trackId
  }

  /** The ids both lists recommend. */
  function Overlap(hist: seq<Flagged>, prefs: seq<Flagged>): set<string>
  {
    TrackIdSet(hist) * TrackIdSet(prefs)
  }

  /** The overlap is symmetric and has no more ids than either list has rows. */
  lemma OverlapSpec(hist: seq<Flagged>, prefs: seq<Flagged>)
    ensures Overlap(hist, prefs) == Overlap(prefs, hist)
    ensures Overlap(hist, prefs) <= TrackIdSet(hist) && Overlap(hist, prefs) <= TrackIdSet(prefs)
    ensures |Overlap(hist, prefs)| <= |hist| && |Overlap(hist, prefs)| <= |prefs|
  {
    SetCardLe(Overlap(hist, prefs), TrackIdSet(hist));
    SetCardLe(Overlap(hist, prefs), TrackIdSet(prefs));
    TrackIdSetCard(hist);
    TrackIdSetCard(prefs);
  }

  lemma {:induction false} TrackIdSetCard(rows: seq<Flagged>)
    ensures |TrackIdSet(rows)| <= |rows|
  {
    if rows != [] {
      var pre := rows[..|rows| - 1];
      TrackIdSetCard(pre);
      assert TrackIdSet(rows) == TrackIdSet(pre) + {rows[|rows| - 1].trackId};
    }
  }

  /** `f[f["track_id"].isin(ids)]`. */
  function Keep(rows: seq<Flagged>, ids: set<string>): seq<Flagged>
  {
    if rows == [] then []
    else Keep(rows[..|rows| - 1], ids) + (if rows[|rows| - 1].trackId in ids then [rows[|rows| - 1]] else [])
  }

  /** The kept rows are a subsequence of the input, all with an id in `ids`. */
  lemma {:induction false} KeepSpec(rows: seq<Flagged>, ids: set<string>)
    ensures IsSubseq(Keep(rows, ids), rows)
    ensures forall i :: 0 <= i < |Keep(rows, ids)| ==> Keep(rows, ids)[i].trackId in ids
  {
    if rows != [] {
      var pre := rows[..|rows| - 1];
      var x := rows[|rows| - 1];
      KeepSpec(pre, ids);
      assert rows == pre + [x];
      if x.trackId in ids {
        SubseqAppendBoth(Keep(pre, ids), pre, x);
      } else {
        SubseqAppendRight(Keep(pre, ids), pre, x);
        assert Keep(rows, ids) == Keep(pre, ids);
      }
    }
  }

  /** No row with an id in `ids` is dropped. */
  lemma {:induction false} KeepCovers(rows: seq<Flagged>, ids: set<string>)
    ensures forall i :: 0 <= i < |rows| && rows[i].trackId in ids ==> rows[i] in Keep(rows, ids)
  {
    if rows != [] {
      var pre := rows[..|rows| - 1];
      KeepCovers(pre, ids);
      assert forall i :: 0 <= i < |pre| ==> rows[i] == pre[i];
    }
  }

  /** The overlap table: the history rows of overlapping tracks, then the preference rows. */
  function OverlapRows(hist: seq<Flagged>, prefs: seq<Flagged>): seq<Flagged>
  {
    Keep(hist, Overlap(hist, prefs)) + Keep(prefs, Overlap(hist, prefs))
  }

  /**
   * The overlap table starts with the history rows whose track both lists
   * recommend, in order and none missing, followed by the preference rows
   * of those tracks; every row in it is one of an overlapping track.
   */
  lemma OverlapRowsSpec(hist: seq<Flagged>, prefs: seq<Flagged>)
    ensures var r := OverlapRows(hist, prefs);
      var n := |Keep(hist, Overlap(hist, prefs))|;
      && n <= |r|
      && IsSubseq(r[..n], hist)
      && IsSubseq(r[n..], prefs)
      && (forall i :: 0 <= i < |r| ==> r[i].trackId in TrackIdSet(hist) && r[i].trackId in TrackIdSet(prefs))
  {
    var ov := Overlap(hist, prefs);
    var h := Keep(hist, ov);
    var p := Keep(prefs, ov);
    var r := OverlapRows(hist, prefs);
    KeepSpec(hist, ov);
    KeepSpec(prefs, ov);
    assert r[..|h|] == h && r[|h|..] == p;
    forall i | 0 <= i < |r|
      ensures r[i].trackId in TrackIdSet(hist) && r[i].trackId in TrackIdSet(prefs)
    {
      if i < |h| {
        assert r[i] == h[i];
      } else {
        assert r[i] == p[i - |h|];
      }
    }
  }

  lemma OverlapRowsCover(hist: seq<Flagged>, prefs: seq<Flagged>)
    ensures forall i :: 0 <= i < |hist| && hist[i].trackId in TrackIdSet(prefs) ==> hist[i] in OverlapRows(hist, prefs)
    ensures forall i :: 0 <= i < |prefs| && prefs[i].trackId in TrackIdSet(hist) ==> prefs[i] in OverlapRows(hist, prefs)
  {
    var ov := Overlap(hist, prefs);
    KeepCovers(hist, ov);
    KeepCovers(prefs, ov);
    assert forall i :: 0 <= i < |hist| ==> hist[i].trackId in TrackIdSet(hist);
    assert forall i :: 0 <= i < |prefs| ==> prefs[i].trackId in TrackIdSet(prefs);
  }

  datatype ListSummary = ListSummary(
    tracks: nat,
    uniqueArtists: nat,
    uniqueGenres: nat,
    newToUserCount: nat,
    newToUserRatio: real,
    topArtists: seq<(string, int)>,
    topGenres: seq<(string, int)>)

  datatype OverlapSummary = OverlapSummary(tracks: nat, ratioVsHistory: real, ratioVsPrefs: real)

  /** The summary, the overlap table and the details table (both lists, history first). */
  datatype Report = Report(
    history: ListSummary,
    prefs: ListSummary,
    overlap: OverlapSummary,
    overlapRows: seq<Flagged>,
    details: seq<Flagged>)

  function Summarise(m: Metrics, f: seq<Flagged>): ListSummary
  {
    ListSummary(m.tracks, m.uniqueArtists, m.uniqueGenres, NewCount(f), Ratio(NewCount(f), m.tracks), m.topArtists, m.topGenres)
  }

  /** The report `main` writes for two non-empty-or-not lists. */
  ghost function ReportOf(hist: seq<RecRow>, prefs: seq<RecRow>, catalog: seq<Option<string>>, artists: seq<ArtistEntry>): Report
  {
    var seen := Owned(catalog);
    var gmap := GenreMapOf(artists);
    var hf := AttachFlags(hist, "history", seen, gmap);
    var pf := AttachFlags(prefs, "prefs", seen, gmap);
    var ov := Overlap(hf, pf);
    var mh := MetricsOf(hf);
    var mp := MetricsOf(pf);
    Report(Summarise(mh, hf), Summarise(mp, pf),
           OverlapSummary(|ov|, Ratio(|ov|, mh.tracks), Ratio(|ov|, mp.tracks)),
           OverlapRows(hf, pf), hf + pf)
  }

  /**
   * `main` without its file I/O: nothing is reported when both lists are
   * empty; otherwise both lists are flagged and summarised and their
   * overlap is measured.
   */
  method Compare(hist: seq<RecRow>, prefs: seq<RecRow>, catalog: seq<Option<string>>, artists: seq<ArtistEntry>)
    returns (r: Option<Report>)
    ensures r.None? <==> hist == [] && prefs == []
    ensures r.Some? ==> r.value == ReportOf(hist, prefs, catalog, artists)
  {
    if hist == [] && prefs == [] {
      return None;
    }
    var seen := Owned(catalog);
    var gmap := GenresMap(artists);
    var hf := AttachFlags(hist, "history", seen, gmap);
    var pf := AttachFlags(prefs, "prefs", seen, gmap);
    var ov := Overlap(hf, pf);
    var mh := DiversityMetrics(hf);
    var mp := DiversityMetrics(pf);
    var summary := OverlapSummary(|ov|, Ratio(|ov|, mh.tracks), Ratio(|ov|, mp.tracks));
    r := Some(Report(Summarise(mh, hf), Summarise(mp, pf), summary, OverlapRows(hf, pf), hf + pf));
  }

  /**
   * The report's numbers: each list's track count is its length; its
   * new-to-user count is the number of its rows whose track the catalogue
   * does not hold, at most the track count, with a ratio in [0, 1] that is 0
   * for an empty list; the overlap has at most as many tracks as either
   * list, with both ratios in [0, 1].
   */
  lemma ReportNumbers(hist: seq<RecRow>, prefs: seq<RecRow>, catalog: seq<Option<string>>, artists: seq<ArtistEntry>)
    ensures var rep := ReportOf(hist, prefs, catalog, artists);
      && rep.history.tracks == |hist| && rep.prefs.tracks == |prefs|
      && rep.history.newToUserCount == |set i | 0 <= i < |hist| && CellText(hist[i].trackId) !in Owned(catalog)|
      && rep.prefs.newToUserCount == |set i | 0 <= i < |prefs| && CellText(prefs[i].trackId) !in Owned(catalog)|
      && rep.history.newToUserCount <= rep.history.tracks
      && rep.prefs.newToUserCount <= rep.prefs.tracks
      && 0.0 <= rep.history.newToUserRatio <= 1.0 && 0.0 <= rep.prefs.newToUserRatio <= 1.0
      && (hist == [] ==> rep.history.newToUserRatio == 0.0 && rep.overlap.ratioVsHistory == 0.0)
      && (prefs == [] ==> rep.prefs.newToUserRatio == 0.0 && rep.overlap.ratioVsPrefs == 0.0)
      && rep.overlap.tracks <= |hist| && rep.overlap.tracks <= |prefs|
      && 0.0 <= rep.overlap.ratioVsHistory <= 1.0 && 0.0 <= rep.overlap.ratioVsPrefs <= 1.0
  {
    var seen := Owned(catalog);
    var gmap := GenreMapOf(artists);
    var hf := AttachFlags(hist, "history", seen, gmap);
    var pf := AttachFlags(prefs, "prefs", seen, gmap);
    var ov := Overlap(hf, pf);
    SummaryNumbers(hist, "history", seen, gmap);
    SummaryNumbers(prefs, "prefs", seen, gmap);
    MetricsCounts(hf);
    MetricsCounts(pf);
    OverlapSpec(hf, pf);
    RatioBounds(|ov|, |hist|);
    RatioBounds(|ov|, |prefs|);
  }

  /** One list's summary numbers: its length, its new-to-user rows and their ratio. */
  lemma SummaryNumbers(rows: seq<RecRow>, which: string, seen: set<string>, gmap: map<string, seq<string>>)
    ensures var f := AttachFlags(rows, which, seen, gmap);
      var sm := Summarise(MetricsOf(f), f);
      && sm.tracks == |rows|
      && sm.newToUserCount == |set i | 0 <= i < |rows| && CellText(rows[i].trackId) !in seen|
      && sm.newToUserCount <= sm.tracks
      && 0.0 <= sm.newToUserRatio <= 1.0
      && (rows == [] ==> sm.newToUserRatio == 0.0)
  {
    var f := AttachFlags(rows, which, seen, gmap);
    MetricsCounts(f);
    NewCountSpec(f);
    assert (set i | 0 <= i < |f| && !f[i].inCatalog) == (set i | 0 <= i < |rows| && CellText(rows[i].trackId) !in seen);
    RatioBounds(NewCount(f), |rows|);
  }
}
