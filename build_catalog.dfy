/**
 * The taste-profile builder: the three listening histories (saved, top,
 * recently played) are weighted by source, concatenated, left-joined with
 * the artist table, reduced to one row per track, and summed into an
 * artist counter and a genre counter whose top entries become the profile's
 * seeds. Weights are exact integers in tenths (1.0 is 10, 2.2 is 22).
 */
module BuildCatalog {
  import opened Collections
  import opened Text
  import opened Ranking

  datatype Source = Saved | Top | Recent

  /** One row of a raw listening CSV; `None` is an absent cell. */
  datatype Listen = Listen(
    trackId: string,
    name: string,
    artistId: string,
    artistName: Option<string>,
    album: string,
    timeRange: Option<string>)

  /** One row of the artist table after its blank cells were filled with "". */
  datatype ArtistRecord = ArtistRecord(artistId: string, artistName: string, genres: string)

  /** One row of the merged catalog; `genres` is `None` when no artist matched the join. */
  datatype CatalogRow = CatalogRow(
    trackId: string,
    name: string,
    artistId: string,
    artistName: Option<string>,
    album: string,
    source: Source,
    weight: nat,
    genres: Option<string>)

  // ---------------------------------------------------------------- weights

  /** The weight a row of `src` gets, in tenths. */
  function SourceWeight(src: Source, timeRange: Option<string>): (w: nat)
    ensures 10 <= w <= 22
    ensures src == Saved ==> w == 10
    ensures src == Recent ==> w == 22
    ensures src == Top ==> w == (match timeRange
                                 case Some("short_term") => 20
                                 case Some("medium_term") => 16
                                 case Some("long_term") => 13
                                 case _ => 15)
  {
    match src
    case Saved => 10
    case Recent => 22
    case Top =>
      if timeRange == Some("short_term") then 20
      else if timeRange == Some("medium_term") then 16
      else if timeRange == Some("long_term") then 13
      else 15
  }

  /** `float(weight or 1.0)`: a zero weight counts as 1.0. */
  function EffectiveWeight(w: nat): (r: nat)
    ensures r >= 1
    ensures w != 0 ==> r == w
    ensures w == 0 ==> r == 10
  {
    if w == 0 then 10 else w
  }

  /** Every source weight is positive, so `or 1.0` never changes one. */
  lemma SourceWeightEffective(src: Source, timeRange: Option<string>)
    ensures EffectiveWeight(SourceWeight(src, timeRange)) == SourceWeight(src, timeRange)
  {
  }

  /** One listening batch with its `source` and `weight` columns set. */
  function Weigh(batch: seq<Listen>, src: Source): (rows: seq<CatalogRow>)
    ensures |rows| == |batch|
    ensures forall i :: 0 <= i < |rows| ==>
      && rows[i].trackId == batch[i].trackId
      && rows[i].name == batch[i].name
      && rows[i].artistId == batch[i].artistId
      && rows[i].artistName == batch[i].artistName
      && rows[i].album == batch[i].album
      && rows[i].source == src
      && rows[i].weight == SourceWeight(src, batch[i].timeRange)
      && rows[i].genres == None
  {
    if batch == [] then []
    else
      var l := batch[0];
      [CatalogRow(l.trackId, l.name, l.artistId, l.artistName, l.album, src, SourceWeight(src, l.timeRange), None)]
        + Weigh(batch[1..], src)
  }

  // ------------------------------------------------------------------ join

  /** The first artist-table row with this id: `drop_duplicates("artist_id")` keeps the first. */
  function FirstArtist(artists: seq<ArtistRecord>, id: string): (r: Option<ArtistRecord>)
    ensures r.None? <==> forall j :: 0 <= j < |artists| ==> artists[j].artistId != id
    ensures r.Some? ==> exists j :: (0 <= j < |artists| && artists[j] == r.value && r.value.artistId == id
      && forall i :: 0 <= i < j ==> artists[i].artistId != id)
  {
    if artists == [] then None
    else if artists[0].artistId == id then
      Some(artists[0])
    else
      var r := FirstArtist(artists[1..], id);
      if r.Some? then
        var j :| 0 <= j < |artists[1..]| && artists[1..][j] == r.value && r.value.artistId == id
          && forall i :: 0 <= i < j ==> artists[1..][i].artistId != id;
        assert artists[j + 1] == r.value;
        assert forall i :: 0 <= i < j + 1 ==> artists[i].artistId != id by {
          forall i | 0 <= i < j + 1
            ensures artists[i].artistId != id
          {
            if i > 0 {
              assert artists[i] == artists[1..][i - 1];
            }
          }
        }
        r
      else
        assert forall j :: 0 <= j < |artists| ==> artists[j].artistId != id by {
          forall j | 0 <= j < |artists|
            ensures artists[j].artistId != id
          {
            if j > 0 {
              assert artists[j] == artists[1..][j - 1];
            }
          }
        }
        r
  }

  /**
   * One row of the left merge: a matching artist supplies the genres and,
   * when the row has no artist name, the name; no match leaves no genres.
   */
  function JoinRow(row: CatalogRow, artists: seq<ArtistRecord>): CatalogRow
  {
    match FirstArtist(artists, row.artistId)
    case None => row.(genres := None)
    case Some(a) => row.(genres := Some(a.genres), artistName := if row.artistName.None? then Some(a.artistName) else row.artistName)
  }

  /**
   * The artist-metadata merge. Without an artist table every row gets an
   * empty genres cell instead.
   */
  function LeftJoin(rows: seq<CatalogRow>, artists: seq<ArtistRecord>): (r: seq<CatalogRow>)
    ensures |r| == |rows|
    ensures forall i :: 0 <= i < |r| ==> r[i] == (if artists == [] then rows[i].(genres := Some("")) else JoinRow(rows[i], artists))
  {
    if rows == [] then []
    else [if artists == [] then rows[0].(genres := Some("")) else JoinRow(rows[0], artists)] + LeftJoin(rows[1..], artists)
  }

  /**
   * The merge keeps every row in place and changes only its genres and a
   * missing artist name; a row whose artist is not in the table has no genres.
   */
  lemma LeftJoinKeepsRows(rows: seq<CatalogRow>, artists: seq<ArtistRecord>, i: nat)
    requires i < |rows|
    ensures LeftJoin(rows, artists)[i].(genres := None, artistName := None) == rows[i].(genres := None, artistName := None)
    ensures rows[i].artistName.Some? ==> LeftJoin(rows, artists)[i].artistName == rows[i].artistName
    ensures (forall j :: 0 <= j < |artists| ==> artists[j].artistId != rows[i].artistId) ==>
      SplitGenres(LeftJoin(rows, artists)[i].genres) == []
  {
  }

  // ------------------------------------------------------- canonical rows

  function TrackIds(rows: seq<CatalogRow>): (ids: seq<string>)
    ensures |ids| == |rows|
    ensures forall i :: 0 <= i < |rows| ==> ids[i] == rows[i].trackId
  {
    if rows == [] then [] else [rows[0].trackId] + TrackIds(rows[1..])
  }

  /** The heaviest row with track id `t`; an equally heavy later row does not replace it. */
  function Best(rows: seq<CatalogRow>, t: string): Option<CatalogRow>
  {
    if rows == [] then None
    else
      var b := Best(rows[..|rows| - 1], t);
      var x := rows[|rows| - 1];
      if x.trackId == t && (b.None? || x.weight > b.value.weight) then Some(x) else b
  }

  /** Row `j` has id `t`, weighs at least as much as every row with `t`, and more than every earlier one. */
  ghost predicate HeaviestAt(rows: seq<CatalogRow>, t: string, j: int)
  {
    && 0 <= j < |rows| && rows[j].trackId == t
    && (forall i :: 0 <= i < |rows| && rows[i].trackId == t ==> rows[i].weight <= rows[j].weight)
    && (forall i :: 0 <= i < j && rows[i].trackId == t ==> rows[i].weight < rows[j].weight)
  }

  /**
   * `Best` is the row of maximal weight among the rows with that id, and the
   * first such row in concatenation order; it exists exactly when the id does.
   */
  lemma BestSpec(rows: seq<CatalogRow>, t: string)
    ensures Best(rows, t).Some? <==> exists i :: 0 <= i < |rows| && rows[i].trackId == t
    ensures Best(rows, t).Some? ==> exists j :: HeaviestAt(rows, t, j) && rows[j] == Best(rows, t).value
  {
    if Best(rows, t).Some? {
      var j := BestAt(rows, t);
    } else {
      BestNone(rows, t);
    }
  }

  /** The position of the kept row. */
  lemma {:induction false} BestAt(rows: seq<CatalogRow>, t: string) returns (j: nat)
    requires Best(rows, t).Some?
    ensures HeaviestAt(rows, t, j) && rows[j] == Best(rows, t).value
  {
    var p := rows[..|rows| - 1];
    var x := rows[|rows| - 1];
    var b := Best(p, t);
    if x.trackId == t && (b.None? || x.weight > b.value.weight) {
      j := |rows| - 1;
      if b.Some? {
        var m := BestAt(p, t);
        forall i | 0 <= i < |p| && rows[i].trackId == t
          ensures rows[i].weight < x.weight
        {
          assert rows[i] == p[i];
        }
      } else {
        BestNone(p, t);
        forall i | 0 <= i < |p|
          ensures rows[i].trackId != t
        {
          assert rows[i] == p[i];
        }
      }
    } else {
      j := BestAt(p, t);
      assert rows[j] == p[j];
      forall i | 0 <= i < |rows| && rows[i].trackId == t
        ensures rows[i].weight <= rows[j].weight
      {
        if i < |p| {
          assert rows[i] == p[i];
        }
      }
      forall i | 0 <= i < j && rows[i].trackId == t
        ensures rows[i].weight < rows[j].weight
      {
        assert rows[i] == p[i];
      }
    }
  }

  /** No row is kept only when no row has the id. */
  lemma {:induction false} BestNone(rows: seq<CatalogRow>, t: string)
    requires Best(rows, t).None?
    ensures forall i :: 0 <= i < |rows| ==> rows[i].trackId != t
  {
    if rows != [] {
      var p := rows[..|rows| - 1];
      BestNone(p, t);
      forall i | 0 <= i < |p|
        ensures rows[i].trackId != t
      {
        assert rows[i] == p[i];
      }
    }
  }

  /** A row with the id guarantees a kept row. */
  lemma {:induction false} BestPresent(rows: seq<CatalogRow>, t: string, a: nat)
    requires a < |rows| && rows[a].trackId == t
    ensures Best(rows, t).Some?
  {
    var p := rows[..|rows| - 1];
    if a < |p| {
      assert p[a] == rows[a];
      BestPresent(p, t, a);
    }
  }

  ghost predicate Ascending(us: seq<string>)
  {
    forall i, j :: 0 <= i < j < |us| ==> StrLess(us[i], us[j])
  }

  /** `t` placed into an ascending list of distinct ids, unless it is already there. */
  function InsertId(t: string, us: seq<string>): seq<string>
  {
    if us == [] then [t]
    else if t == us[0] then us
    else if StrLess(t, us[0]) then [t] + us
    else [us[0]] + InsertId(t, us[1..])
  }

  lemma {:induction false} InsertIdSpec(t: string, us: seq<string>)
    requires Ascending(us)
    ensures Ascending(InsertId(t, us))
    ensures forall x :: x in InsertId(t, us) <==> x == t || x in us
  {
    if us == [] {
    } else if t == us[0] {
    } else if StrLess(t, us[0]) {
      var r := [t] + us;
      forall i, j | 0 <= i < j < |r|
        ensures StrLess(r[i], r[j])
      {
        if i == 0 && j > 1 {
          StrLessTransitive(t, us[0], us[j - 1]);
        }
      }
    } else {
      var rest := InsertId(t, us[1..]);
      InsertIdSpec(t, us[1..]);
      StrLessTotal(t, us[0]);
      assert us == [us[0]] + us[1..];
      var r := [us[0]] + rest;
      forall i, j | 0 <= i < j < |r|
        ensures StrLess(r[i], r[j])
      {
        if i == 0 {
          assert r[j] in rest;
        } else {
          assert r[i] == rest[i - 1] && r[j] == rest[j - 1];
        }
      }
    }
  }

  /** The distinct ids of `ids`, ascending in code-point order. */
  function SortedUnique(ids: seq<string>): seq<string>
  {
    if ids == [] then [] else InsertId(ids[|ids| - 1], SortedUnique(ids[..|ids| - 1]))
  }

  lemma {:induction false} SortedUniqueSpec(ids: seq<string>)
    ensures Ascending(SortedUnique(ids))
    ensures forall x :: x in SortedUnique(ids) <==> x in ids
  {
    if ids != [] {
      var p := ids[..|ids| - 1];
      SortedUniqueSpec(p);
      InsertIdSpec(ids[|ids| - 1], SortedUnique(p));
      assert ids == p + [ids[|ids| - 1]];
    }
  }

  /** The heaviest row for each id of `us`, in the order of `us`. */
  function Pick(rows: seq<CatalogRow>, us: seq<string>): seq<CatalogRow>
  {
    if us == [] then []
    else (match Best(rows, us[0]) case Some(b) => [b] case None => []) + Pick(rows, us[1..])
  }

  lemma {:induction false} PickSpec(rows: seq<CatalogRow>, us: seq<string>)
    requires forall k :: 0 <= k < |us| ==> us[k] in TrackIds(rows)
    ensures |Pick(rows, us)| == |us|
    ensures forall k :: 0 <= k < |us| ==> Best(rows, us[k]) == Some(Pick(rows, us)[k]) && Pick(rows, us)[k].trackId == us[k]
  {
    if us != [] {
      var ids := TrackIds(rows);
      var tail := us[1..];
      assert forall k :: 0 <= k < |tail| ==> tail[k] == us[k + 1];
      PickSpec(rows, tail);
      var rest := Pick(rows, tail);
      var a :| 0 <= a < |ids| && ids[a] == us[0];
      BestPresent(rows, us[0], a);
      var j := BestAt(rows, us[0]);
      var b := Best(rows, us[0]).value;
      assert Pick(rows, us) == [b] + rest;
      forall k | 0 <= k < |us|
        ensures Best(rows, us[k]) == Some(Pick(rows, us)[k]) && Pick(rows, us)[k].trackId == us[k]
      {
        if k > 0 {
          assert us[k] == tail[k - 1] && Pick(rows, us)[k] == rest[k - 1];
        }
      }
    }
  }

  /**
   * `sort_values(["track_id", "weight"], ascending=[True, False])` followed by
   * `drop_duplicates("track_id", keep="first")`: ordered by id, one row per id.
   */
  function Canonical(rows: seq<CatalogRow>): seq<CatalogRow>
  {
    Pick(rows, SortedUnique(TrackIds(rows)))
  }

  /**
   * The canonical catalog has exactly one row per input track id, in
   * ascending id order; that row is an input row of maximal weight for its
   * id, and the first one in concatenation order among equally heavy rows.
   */
  lemma CanonicalSpec(rows: seq<CatalogRow>)
    ensures forall i, j :: 0 <= i < j < |Canonical(rows)| ==> StrLess(Canonical(rows)[i].trackId, Canonical(rows)[j].trackId)
    ensures forall i :: 0 <= i < |rows| ==> exists k :: 0 <= k < |Canonical(rows)| && Canonical(rows)[k].trackId == rows[i].trackId
    ensures forall k :: 0 <= k < |Canonical(rows)| ==> Best(rows, Canonical(rows)[k].trackId) == Some(Canonical(rows)[k])
  {
    var ids := TrackIds(rows);
    var us := SortedUnique(ids);
    SortedUniqueSpec(ids);
    assert forall k :: 0 <= k < |us| ==> us[k] in ids;
    PickSpec(rows, us);
    var cat := Canonical(rows);
    forall i | 0 <= i < |rows|
      ensures exists k :: 0 <= k < |cat| && cat[k].trackId == rows[i].trackId
    {
      assert ids[i] == rows[i].trackId && ids[i] in ids;
      var k :| 0 <= k < |us| && us[k] == rows[i].trackId;
      assert cat[k].trackId == rows[i].trackId;
    }
  }

  /**
   * Consequently every catalog row is an input row that weighs at least as
   * much as each input row of its track, and more than every earlier one.
   */
  lemma CanonicalHeaviest(rows: seq<CatalogRow>, k: nat)
    requires k < |Canonical(rows)|
    ensures exists j :: (0 <= j < |rows| && rows[j] == Canonical(rows)[k]
      && forall i :: 0 <= i < j && rows[i].trackId == rows[j].trackId ==> rows[i].weight < rows[j].weight)
    ensures forall i :: 0 <= i < |rows| && rows[i].trackId == Canonical(rows)[k].trackId ==> rows[i].weight <= Canonical(rows)[k].weight
  {
    CanonicalSpec(rows);
    var j := BestAt(rows, Canonical(rows)[k].trackId);
  }

  // ---------------------------------------------------------------- scores

  /** `split_genres`: a missing cell gives no genres. */
  function SplitGenres(g: Option<string>): (r: seq<string>)
    ensures forall k :: 0 <= k < |r| ==> Token(r[k])
    ensures g.None? || Blank(g.value) ==> r == []
  {
    match g
    case None => []
    case Some(s) => ParseList(s, false)
  }

  /**
   * A present cell: its comma pieces, stripped, in their order, and no
   * piece that strips to a non-blank token is lost.
   */
  lemma SplitGenresPieces(s: string)
    ensures IsSubseq(SplitGenres(Some(s)), StripAll(Split(s, ',')))
    ensures forall k :: 0 <= k < |Split(s, ',')| && Strip(Split(s, ',')[k]) != [] ==>
      Strip(Split(s, ',')[k]) in SplitGenres(Some(s))
  {
    ParseListPieces(s, false);
  }

  /** An artist is scored under the pair of its id and its (possibly missing) name. */
  type ArtistKey = (string, Option<string>)

  function KeyOfRow(row: CatalogRow): ArtistKey
  {
    (row.artistId, row.artistName)
  }

  /** The `artist_counter[(a_id, a_nm)] += w` steps of a run over `rows`; rows without an artist id add none. */
  function ArtistPairs(rows: seq<CatalogRow>): seq<(ArtistKey, int)>
  {
    if rows == [] then []
    else
      var x := rows[|rows| - 1];
      ArtistPairs(rows[..|rows| - 1]) + (if x.artistId != "" then [(KeyOfRow(x), EffectiveWeight(x.weight) as int)] else [])
  }

  /** One `genre_counter[g] += w` step per genre token of a row. */
  function TokenPairs(toks: seq<string>, w: int): (ps: seq<(string, int)>)
    ensures |ps| == |toks|
    ensures forall k :: 0 <= k < |toks| ==> ps[k] == (toks[k], w)
  {
    seq(|toks|, k requires 0 <= k < |toks| => (toks[k], w))
  }

  function GenrePairs(rows: seq<CatalogRow>): seq<(string, int)>
  {
    if rows == [] then []
    else
      var x := rows[|rows| - 1];
      GenrePairs(rows[..|rows| - 1]) + TokenPairs(SplitGenres(x.genres), EffectiveWeight(x.weight))
  }

  /** Reference sum: the weights of the rows with a non-empty artist id and this key. */
  function ArtistScore(rows: seq<CatalogRow>, key: ArtistKey): nat
  {
    if rows == [] then 0
    else
      var x := rows[|rows| - 1];
      ArtistScore(rows[..|rows| - 1], key) + (if x.artistId != "" && KeyOfRow(x) == key then EffectiveWeight(x.weight) else 0)
  }

  /** Reference sum: each row's weight once per occurrence of the genre among its tokens. */
  function GenreScore(rows: seq<CatalogRow>, g: string): nat
  {
    if rows == [] then 0
    else
      var x := rows[|rows| - 1];
      GenreScore(rows[..|rows| - 1], g) + Times(EffectiveWeight(x.weight), Occurrences(SplitGenres(x.genres), g))
  }

  function Times(w: nat, k: nat): nat
  {
    w * k
  }

  lemma {:induction false} ArtistPairsSum(rows: seq<CatalogRow>, key: ArtistKey)
    ensures SumFor(ArtistPairs(rows), key) == ArtistScore(rows, key)
  {
    if rows != [] {
      var p := rows[..|rows| - 1];
      var x := rows[|rows| - 1];
      ArtistPairsSum(p, key);
      var tail: seq<(ArtistKey, int)> := if x.artistId != "" then [(KeyOfRow(x), EffectiveWeight(x.weight) as int)] else [];
      SumForAppend(ArtistPairs(p), tail, key);
      if tail != [] {
        assert tail[..0] == [];
      }
    }
  }

  lemma {:induction false} TokenPairsSum(toks: seq<string>, w: int, g: string)
    ensures SumFor(TokenPairs(toks, w), g) == w * Occurrences(toks, g)
  {
    if toks != [] {
      var p := toks[..|toks| - 1];
      TokenPairsSum(p, w, g);
      assert TokenPairs(toks, w)[..|toks| - 1] == TokenPairs(p, w);
    }
  }

  lemma {:induction false} GenrePairsSum(rows: seq<CatalogRow>, g: string)
    ensures SumFor(GenrePairs(rows), g) == GenreScore(rows, g)
  {
    if rows != [] {
      var p := rows[..|rows| - 1];
      var x := rows[|rows| - 1];
      GenrePairsSum(p, g);
      SumForAppend(GenrePairs(p), TokenPairs(SplitGenres(x.genres), EffectiveWeight(x.weight)), g);
      TokenPairsSum(SplitGenres(x.genres), EffectiveWeight(x.weight), g);
    }
  }

  /**
   * The score loop: for every row, in order, the artist key gets the row's
   * weight (when the row has an artist id) and every genre token gets it too.
   */
  method AccumulateScores(catalog: seq<CatalogRow>) returns (artists: Counter<ArtistKey>, genres: Counter<string>)
    ensures artists == Tally(ArtistPairs(catalog))
    ensures genres == Tally(GenrePairs(catalog))
  {
    artists := Counter([], map[]);
    genres := Counter([], map[]);
    var i := 0;
    while i < |catalog|
      invariant 0 <= i <= |catalog|
      invariant artists == Tally(ArtistPairs(catalog[..i]))
      invariant genres == Tally(GenrePairs(catalog[..i]))
    {
      var row := catalog[i];
      var w := EffectiveWeight(row.weight);
      ArtistStep(catalog, i);
      if row.artistId != "" {
        artists := Add(artists, KeyOfRow(row), w);
      }
      var toks := SplitGenres(row.genres);
      GenreStep(catalog, i);
      genres := AddGenres(genres, toks, w, GenrePairs(catalog[..i]));
      i := i + 1;
    }
    assert catalog[..i] == catalog;
  }

  lemma ArtistStep(catalog: seq<CatalogRow>, i: nat)
    requires i < |catalog|
    ensures Tally(ArtistPairs(catalog[..i + 1])) == if catalog[i].artistId != ""
      then Add(Tally(ArtistPairs(catalog[..i])), KeyOfRow(catalog[i]), EffectiveWeight(catalog[i].weight))
      else Tally(ArtistPairs(catalog[..i]))
  {
    assert catalog[..i + 1][..i] == catalog[..i];
    var ps := ArtistPairs(catalog[..i]);
    if catalog[i].artistId != "" {
      TallySnoc(ps, (KeyOfRow(catalog[i]), EffectiveWeight(catalog[i].weight)));
    } else {
      assert ps + [] == ps;
    }
  }

  lemma GenreStep(catalog: seq<CatalogRow>, i: nat)
    requires i < |catalog|
    ensures GenrePairs(catalog[..i + 1]) == GenrePairs(catalog[..i])
      + TokenPairs(SplitGenres(catalog[i].genres), EffectiveWeight(catalog[i].weight))
  {
    assert catalog[..i + 1][..i] == catalog[..i];
  }

  /** `for g in toks: genre_counter[g] += w`. */
  method AddGenres(genres: Counter<string>, toks: seq<string>, w: int, ghost done: seq<(string, int)>) returns (c: Counter<string>)
    requires genres == Tally(done)
    ensures c == Tally(done + TokenPairs(toks, w))
  {
    c := genres;
    assert done + TokenPairs(toks[..0], w) == done;
    var j := 0;
    while j < |toks|
      invariant 0 <= j <= |toks|
      invariant c == Tally(done + TokenPairs(toks[..j], w))
    {
      TokenStep(done, toks, j, w);
      c := Add(c, toks[j], w);
      j := j + 1;
    }
    assert toks[..j] == toks;
  }

  lemma TokenStep(done: seq<(string, int)>, toks: seq<string>, j: nat, w: int)
    requires j < |toks|
    ensures Tally(done + TokenPairs(toks[..j + 1], w)) == Add(Tally(done + TokenPairs(toks[..j], w)), toks[j], w)
  {
    assert TokenPairs(toks[..j + 1], w) == TokenPairs(toks[..j], w) + [(toks[j], w)];
    assert done + TokenPairs(toks[..j + 1], w) == (done + TokenPairs(toks[..j], w)) + [(toks[j], w)];
    TallySnoc(done + TokenPairs(toks[..j], w), (toks[j], w));
  }

  lemma TallySnoc<K>(ps: seq<(K, int)>, q: (K, int))
    ensures Tally(ps + [q]) == Add(Tally(ps), q.0, q.1)
  {
    assert (ps + [q])[..|ps|] == ps;
  }

  /** The artist counter scores each key with the reference sum over the catalog. */
  lemma ArtistCounterSpec(catalog: seq<CatalogRow>)
    ensures Valid(Tally(ArtistPairs(catalog)))
    ensures forall key :: key in Tally(ArtistPairs(catalog)).score ==> Tally(ArtistPairs(catalog)).score[key] == ArtistScore(catalog, key)
    ensures forall key :: key !in Tally(ArtistPairs(catalog)).score ==> ArtistScore(catalog, key) == 0
  {
    TallySpec(ArtistPairs(catalog));
    forall key
      ensures SumFor(ArtistPairs(catalog), key) == ArtistScore(catalog, key)
    {
      ArtistPairsSum(catalog, key);
    }
    forall key | key !in Tally(ArtistPairs(catalog)).score
      ensures ArtistScore(catalog, key) == 0
    {
      ArtistPairsSum(catalog, key);
      assert SumFor(ArtistPairs(catalog), key) == 0;
    }
  }

  /** The genre counter scores each genre with the reference sum over the catalog. */
  lemma GenreCounterSpec(catalog: seq<CatalogRow>)
    ensures Valid(Tally(GenrePairs(catalog)))
    ensures forall g :: g in Tally(GenrePairs(catalog)).score ==> Tally(GenrePairs(catalog)).score[g] == GenreScore(catalog, g)
    ensures forall g :: g !in Tally(GenrePairs(catalog)).score ==> GenreScore(catalog, g) == 0
  {
    TallySpec(GenrePairs(catalog));
    forall g
      ensures SumFor(GenrePairs(catalog), g) == GenreScore(catalog, g)
    {
      GenrePairsSum(catalog, g);
    }
  }

  // --------------------------------------------------------------- profile

  datatype Profile = Profile(
    seedArtistIds: seq<string>,
    seedGenres: seq<string>,
    topArtists: seq<(ArtistKey, int)>,
    topGenres: seq<(string, int)>,
    tracks: nat,
    uniqueArtists: nat,
    uniqueGenres: nat)

  function ArtistIds(rows: seq<CatalogRow>): (ids: seq<string>)
    ensures |ids| == |rows|
    ensures forall i :: 0 <= i < |rows| ==> ids[i] == rows[i].artistId
  {
    if rows == [] then [] else [rows[0].artistId] + ArtistIds(rows[1..])
  }

  /** The ids of the first five ranked artists. */
  function SeedIds(top: seq<(ArtistKey, int)>): (r: seq<string>)
    ensures |r| == Min(5, |top|)
    ensures forall i :: 0 <= i < |r| ==> r[i] == top[i].0.0
  {
    var t := Take(top, 5);
    seq(|t|, i requires 0 <= i < |t| => t[i].0.0)
  }

  /** The profile the builder writes for a catalog. */
  ghost function ProfileOf(catalog: seq<CatalogRow>): Profile
  {
    var artists := Tally(ArtistPairs(catalog));
    var genres := Tally(GenrePairs(catalog));
    TallySpec(ArtistPairs(catalog));
    TallySpec(GenrePairs(catalog));
    var topArtists := MostCommon(artists, 15);
    var topGenres := MostCommon(genres, 20);
    Profile(SeedIds(topArtists), Firsts(Take(topGenres, 5)), topArtists, topGenres,
            |catalog|, |Distinct(ArtistIds(catalog))|, |genres.keys|)
  }

  /** The catalog the builder writes: all batches weighted, concatenated, joined and reduced. */
  function CatalogOf(saved: seq<Listen>, top: seq<Listen>, recent: seq<Listen>, artists: seq<ArtistRecord>): seq<CatalogRow>
  {
    Canonical(LeftJoin(Weigh(saved, Saved) + Weigh(top, Top) + Weigh(recent, Recent), artists))
  }

  /**
   * The whole builder. No listening rows at all give no catalog and no
   * profile; otherwise the catalog and its profile.
   */
  method BuildProfile(saved: seq<Listen>, top: seq<Listen>, recent: seq<Listen>, artists: seq<ArtistRecord>)
    returns (r: Option<(seq<CatalogRow>, Profile)>)
    ensures r.None? <==> saved == [] && top == [] && recent == []
    ensures r.Some? ==> r.value.0 == CatalogOf(saved, top, recent, artists) && r.value.1 == ProfileOf(r.value.0)
  {
    if saved == [] && top == [] && recent == [] {
      return None;
    }
    var catalog := CatalogOf(saved, top, recent, artists);
    var artistCounter, genreCounter := AccumulateScores(catalog);
    TallySpec(ArtistPairs(catalog));
    TallySpec(GenrePairs(catalog));
    var topArtists := MostCommon(artistCounter, 15);
    var topGenres := MostCommon(genreCounter, 20);
    var profile := Profile(SeedIds(topArtists), Firsts(Take(topGenres, 5)), topArtists, topGenres,
                           |catalog|, |Distinct(ArtistIds(catalog))|, |genreCounter.keys|);
    return Some((catalog, profile));
  }

  /**
   * The ranked artists: at most 15, each with its summed weight, distinct
   * keys, scores non-increasing, and no unlisted artist scoring more than a
   * listed one. The seeds are the ids of the first five of them.
   */
  lemma ProfileArtists(catalog: seq<CatalogRow>)
    ensures var p := ProfileOf(catalog);
      && |p.topArtists| <= 15
      && (forall i, j :: 0 <= i < j < |p.topArtists| ==> p.topArtists[i].1 >= p.topArtists[j].1)
      && (forall i :: 0 <= i < |p.topArtists| ==> p.topArtists[i].1 == ArtistScore(catalog, p.topArtists[i].0))
      && (forall i, j :: 0 <= i < j < |p.topArtists| ==> p.topArtists[i].0 != p.topArtists[j].0)
      && (forall key, i :: 0 <= i < |p.topArtists| && key !in Firsts(p.topArtists) ==> ArtistScore(catalog, key) <= p.topArtists[i].1)
      && |p.seedArtistIds| == Min(5, |p.topArtists|)
      && (forall i :: 0 <= i < |p.seedArtistIds| ==> p.seedArtistIds[i] == p.topArtists[i].0.0)
  {
    var c := Tally(ArtistPairs(catalog));
    ArtistCounterSpec(catalog);
    var top := MostCommon(c, 15);
    assert ProfileOf(catalog).topArtists == top && ProfileOf(catalog).seedArtistIds == SeedIds(top);
    forall i | 0 <= i < |top|
      ensures top[i].1 == ArtistScore(catalog, top[i].0)
    {
      assert top[i].0 in c.score;
    }
    forall key, i | 0 <= i < |top| && key !in Firsts(top)
      ensures ArtistScore(catalog, key) <= top[i].1
    {
      assert top[i].1 == c.score[top[i].0] == ArtistScore(catalog, top[i].0);
      if key in c.score {
        assert c.score[key] <= top[i].1;
      }
    }
  }

  /**
   * The ranked genres: at most 20, each with its summed weight, distinct,
   * scores non-increasing, none unlisted scoring more; the seeds are the
   * first five genre names (`ProfileGenreSeeds`).
   */
  lemma ProfileGenres(catalog: seq<CatalogRow>)
    ensures var p := ProfileOf(catalog);
      && |p.topGenres| <= 20
      && (forall i, j :: 0 <= i < j < |p.topGenres| ==> p.topGenres[i].1 >= p.topGenres[j].1)
      && (forall i :: 0 <= i < |p.topGenres| ==> p.topGenres[i].1 == GenreScore(catalog, p.topGenres[i].0))
      && (forall i, j :: 0 <= i < j < |p.topGenres| ==> p.topGenres[i].0 != p.topGenres[j].0)
      && (forall g, i :: 0 <= i < |p.topGenres| && g !in Firsts(p.topGenres) ==> GenreScore(catalog, g) <= p.topGenres[i].1)
  {
    var c := Tally(GenrePairs(catalog));
    GenreCounterSpec(catalog);
    var top := MostCommon(c, 20);
    assert ProfileOf(catalog).topGenres == top;
    forall i | 0 <= i < |top|
      ensures top[i].1 == GenreScore(catalog, top[i].0)
    {
      assert top[i].0 in c.score;
    }
    forall g, i | 0 <= i < |top| && g !in Firsts(top)
      ensures GenreScore(catalog, g) <= top[i].1
    {
      assert top[i].1 == c.score[top[i].0] == GenreScore(catalog, top[i].0);
      if g in c.score {
        assert c.score[g] <= top[i].1;
      }
    }
  }

  lemma ProfileGenreSeeds(catalog: seq<CatalogRow>)
    ensures var p := ProfileOf(catalog);
      && |p.seedGenres| == Min(5, |p.topGenres|)
      && (forall i :: 0 <= i < |p.seedGenres| ==> p.seedGenres[i] == p.topGenres[i].0)
  {
    FirstsIndex(Take(ProfileOf(catalog).topGenres, 5));
  }

  /**
   * The counts: `tracks` is the catalog size, `unique_artists` the number of
   * distinct artist ids, `unique_genres` the number of genre keys, which are
   * the distinct genre tokens of the catalog.
   */
  lemma ProfileCounts(catalog: seq<CatalogRow>)
    ensures ProfileOf(catalog).tracks == |catalog|
    ensures ProfileOf(catalog).uniqueArtists == |Distinct(ArtistIds(catalog))|
    ensures ProfileOf(catalog).uniqueGenres == |Distinct(AllGenres(catalog))|
  {
    TallySpec(GenrePairs(catalog));
    FirstsGenrePairs(catalog);
  }

  /** Every genre token of every row, in order. */
  function AllGenres(rows: seq<CatalogRow>): seq<string>
  {
    if rows == [] then [] else AllGenres(rows[..|rows| - 1]) + SplitGenres(rows[|rows| - 1].genres)
  }

  lemma {:induction false} FirstsAppend<K>(a: seq<(K, int)>, b: seq<(K, int)>)
    ensures Firsts(a + b) == Firsts(a) + Firsts(b)
    decreases |b|
  {
    if b == [] {
      assert a + b == a;
    } else {
      assert (a + b)[..|a + b| - 1] == a + b[..|b| - 1];
      FirstsAppend(a, b[..|b| - 1]);
    }
  }

  lemma {:induction false} FirstsGenrePairs(rows: seq<CatalogRow>)
    ensures Firsts(GenrePairs(rows)) == AllGenres(rows)
  {
    if rows != [] {
      var x := rows[|rows| - 1];
      var toks := SplitGenres(x.genres);
      FirstsGenrePairs(rows[..|rows| - 1]);
      FirstsAppend(GenrePairs(rows[..|rows| - 1]), TokenPairs(toks, EffectiveWeight(x.weight)));
      FirstsIndex(TokenPairs(toks, EffectiveWeight(x.weight)));
      assert Firsts(TokenPairs(toks, EffectiveWeight(x.weight))) == toks;
    }
  }
}
