/**
 * The recommender: seed artists are picked from the taste profile (history)
 * and from the saved tracks (preferences); for each seed list the expander
 * collects the top tracks of every seed and of its related artists, then
 * removes duplicates and owned tracks, ranks seed tracks first by
 * popularity, and truncates to the target length. The two catalogue calls
 * are function parameters; a failed call is an empty answer.
 */
module MakeRecs {
  import opened Collections
  import opened Text
  import opened Ranking

  // ------------------------------------------------------------------ seeds

  function IdText(o: Option<string>): string
  {
    match o
    case None => ""
    case Some(s) => s
  }

  /** `str(item.get("artist_id") or "").strip()` for every ranked artist of the profile. */
  function StrippedIds(items: seq<Option<string>>): (r: seq<string>)
    ensures |r| == |items|
    ensures forall i :: 0 <= i < |items| ==> r[i] == Strip(IdText(items[i]))
  {
    seq(|items|, i requires 0 <= i < |items| => Strip(IdText(items[i])))
  }

  /** `[x for x in xs if x]`. */
  function NonBlank(xs: seq<string>): seq<string>
  {
    if xs == [] then []
    else NonBlank(xs[..|xs| - 1]) + (if xs[|xs| - 1] != [] then [xs[|xs| - 1]] else [])
  }

  /** The non-blank entries form a subsequence of the input, and none of them is blank. */
  lemma {:induction false} NonBlankSubseq(xs: seq<string>)
    ensures IsSubseq(NonBlank(xs), xs)
    ensures forall k :: 0 <= k < |NonBlank(xs)| ==> NonBlank(xs)[k] != []
  {
    if xs != [] {
      var p := xs[..|xs| - 1];
      var x := xs[|xs| - 1];
      NonBlankSubseq(p);
      assert xs == p + [x];
      if x != [] {
        SubseqAppendBoth(NonBlank(p), p, x);
      } else {
        SubseqAppendRight(NonBlank(p), p, x);
        assert NonBlank(xs) == NonBlank(p);
      }
    }
  }

  /** No non-blank entry is dropped. */
  lemma {:induction false} NonBlankCovers(xs: seq<string>)
    ensures forall i :: 0 <= i < |xs| && xs[i] != [] ==> xs[i] in NonBlank(xs)
  {
    if xs != [] {
      var p := xs[..|xs| - 1];
      NonBlankCovers(p);
      assert forall i :: 0 <= i < |p| ==> xs[i] == p[i];
    }
  }

  /** The filter is empty exactly when every entry is blank. */
  lemma {:induction false} NonBlankEmpty(xs: seq<string>)
    ensures NonBlank(xs) == [] <==> forall i :: 0 <= i < |xs| ==> xs[i] == []
  {
    if xs != [] {
      var p := xs[..|xs| - 1];
      NonBlankEmpty(p);
      assert forall i :: 0 <= i < |p| ==> xs[i] == p[i];
    }
  }

  /** Where the `k`th kept entry comes from. */
  lemma {:induction false} NonBlankFrom(xs: seq<string>, k: nat) returns (i: nat)
    requires k < |NonBlank(xs)|
    ensures i < |xs| && xs[i] == NonBlank(xs)[k]
  {
    var p := xs[..|xs| - 1];
    if k < |NonBlank(p)| {
      i := NonBlankFrom(p, k);
    } else {
      i := |xs| - 1;
    }
  }

  /** The stripped, non-blank artist ids of the profile's ranked artists, in order. */
  function ProfileIds(items: seq<Option<string>>): seq<string>
  {
    NonBlank(StrippedIds(items))
  }

  /** The fallback: the stripped, non-blank entries of `seeds.artist_ids`. */
  function CleanIds(xs: seq<string>): seq<string>
  {
    NonBlank(StripAll(xs))
  }

  /** Every history id is a token: non-empty, without surrounding white space. */
  lemma ProfileIdsTokens(items: seq<Option<string>>)
    ensures forall k :: 0 <= k < |ProfileIds(items)| ==> Token(ProfileIds(items)[k])
  {
    var xs := StrippedIds(items);
    NonBlankSubseq(xs);
    forall k | 0 <= k < |ProfileIds(items)|
      ensures Token(ProfileIds(items)[k])
    {
      var i := NonBlankFrom(xs, k);
      StripEnds(IdText(items[i]));
    }
  }

  /**
   * The history ids are the stripped ids of the ranked artists, in their
   * order, with every non-blank one kept.
   */
  lemma ProfileIdsOrder(items: seq<Option<string>>)
    ensures IsSubseq(ProfileIds(items), StrippedIds(items))
    ensures forall i :: 0 <= i < |items| && Strip(IdText(items[i])) != [] ==> Strip(IdText(items[i])) in ProfileIds(items)
  {
    var xs := StrippedIds(items);
    NonBlankSubseq(xs);
    NonBlankCovers(xs);
    assert forall i :: 0 <= i < |items| ==> xs[i] == Strip(IdText(items[i]));
  }

  /** The ranked artists yield no id exactly when every id is blank or missing. */
  lemma ProfileIdsEmpty(items: seq<Option<string>>)
    ensures ProfileIds(items) == [] <==> forall i :: 0 <= i < |items| ==> Strip(IdText(items[i])) == []
  {
    var xs := StrippedIds(items);
    NonBlankEmpty(xs);
    assert forall i :: 0 <= i < |items| ==> xs[i] == Strip(IdText(items[i]));
  }

  lemma ProfileIdsSnoc(items: seq<Option<string>>, i: nat)
    requires i < |items|
    ensures ProfileIds(items[..i + 1]) ==
      ProfileIds(items[..i]) + (if Strip(IdText(items[i])) != [] then [Strip(IdText(items[i]))] else [])
  {
    var xs := StrippedIds(items[..i + 1]);
    assert xs[..i] == StrippedIds(items[..i]);
    assert xs[i] == Strip(IdText(items[i]));
  }

  lemma CleanIdsTokens(xs: seq<string>)
    ensures forall k :: 0 <= k < |CleanIds(xs)| ==> Token(CleanIds(xs)[k])
  {
    var ys := StripAll(xs);
    NonBlankSubseq(ys);
    forall k | 0 <= k < |CleanIds(xs)|
      ensures Token(CleanIds(xs)[k])
    {
      var i := NonBlankFrom(ys, k);
      StripEnds(xs[i]);
    }
  }

  /** The ids `pick_top_artists_from_profile` chooses among: the ranked artists, else the seed ids. */
  function HistoryCandidates(items: seq<Option<string>>, fallback: seq<string>): seq<string>
  {
    if ProfileIds(items) != [] then ProfileIds(items) else CleanIds(fallback)
  }

  /**
   * `pick_top_artists_from_profile`: the loop over the ranked artists, the
   * fallback to `seeds.artist_ids` when it found none, and the cut to `n`.
   */
  method PickFromProfile(items: seq<Option<string>>, fallback: seq<string>, n: nat) returns (out: seq<string>)
    ensures out == Take(HistoryCandidates(items, fallback), n)
  {
    out := [];
    var i := 0;
    while i < |items|
      invariant 0 <= i <= |items|
      invariant out == ProfileIds(items[..i])
    {
      var aid := Strip(IdText(items[i]));
      ProfileIdsSnoc(items, i);
      if aid != [] {
        out := out + [aid];
      }
      i := i + 1;
    }
    assert items[..i] == items;
    if out == [] {
      out := CleanIds(fallback);
    }
    out := Take(out, n);
  }

  /** The history seeds are tokens, at most `n` of them, and come from the ranked artists whenever any is usable. */
  lemma HistorySeeds(items: seq<Option<string>>, fallback: seq<string>, n: nat)
    ensures |Take(HistoryCandidates(items, fallback), n)| <= n
    ensures forall k :: 0 <= k < |Take(HistoryCandidates(items, fallback), n)| ==> Token(Take(HistoryCandidates(items, fallback), n)[k])
    ensures (exists i :: 0 <= i < |items| && Strip(IdText(items[i])) != []) ==>
      Take(HistoryCandidates(items, fallback), n) == Take(ProfileIds(items), n)
  {
    ProfileIdsTokens(items);
    ProfileIdsEmpty(items);
    CleanIdsTokens(fallback);
  }

  /** `saved_df["artist_id"].dropna().astype(str)`: the present cells of the column. */
  function Present(col: seq<Option<string>>): seq<string>
  {
    if col == [] then []
    else Present(col[..|col| - 1]) + (match col[|col| - 1] case Some(a) => [a] case None => [])
  }

  /**
   * `pick_top_artists_from_saved`: the artists the saved tracks mention most
   * often. `None` is a saved-tracks table that is empty or has no
   * `artist_id` column.
   */
  function PickFromSaved(col: Option<seq<Option<string>>>, n: nat): seq<string>
  {
    match col
    case None => []
    case Some(c) =>
      CountOfSpec(Present(c));
      Firsts(MostCommon(CountOf(Present(c)), n))
  }

  /**
   * The preference seeds are at most `n` distinct present ids, ranked by how
   * often they occur, most frequent first.
   */
  lemma PickFromSavedRanked(c: seq<Option<string>>, n: nat)
    ensures var r := PickFromSaved(Some(c), n);
      && |r| <= n
      && NoDup(r)
      && (forall i :: 0 <= i < |r| ==> r[i] in Present(c))
      && (forall i, j :: 0 <= i < j < |r| ==> Occurrences(Present(c), r[i]) >= Occurrences(Present(c), r[j]))
  {
    var xs := Present(c);
    MostFrequent(xs, n);
    var top := MostCommon(CountOf(xs), n);
    FirstsIndex(top);
    var r := Firsts(top);
    assert r == PickFromSaved(Some(c), n);
    forall i | 0 <= i < |r|
      ensures r[i] in xs
    {
      var j := OccurrencesIndex(xs, r[i]);
    }
  }

  /** No id left out of the preference seeds occurs more often than a chosen one. */
  lemma PickFromSavedDominates(c: seq<Option<string>>, n: nat)
    ensures var r := PickFromSaved(Some(c), n);
      forall a, i :: 0 <= i < |r| && a !in r ==> Occurrences(Present(c), a) <= Occurrences(Present(c), r[i])
  {
    var xs := Present(c);
    var cnt := CountOf(xs);
    CountOfSpec(xs);
    var top := MostCommon(cnt, n);
    FirstsIndex(top);
    var r := Firsts(top);
    assert r == PickFromSaved(Some(c), n);
    forall a, i | 0 <= i < |r| && a !in r
      ensures Occurrences(xs, a) <= Occurrences(xs, r[i])
    {
      assert Occurrences(xs, r[i]) == top[i].1;
      if Occurrences(xs, a) > 0 {
        var j := OccurrencesIndex(xs, a);
        DistinctCovers(xs);
        assert a in cnt.keys;
      }
    }
  }

  /** There are no preference seeds exactly when there is no column, no present id, or `n` is 0. */
  lemma PickFromSavedEmpty(col: Option<seq<Option<string>>>, n: nat)
    ensures PickFromSaved(col, n) == [] <==> col.None? || Present(col.value) == [] || n == 0
  {
    if col.Some? {
      var xs := Present(col.value);
      var cnt := CountOf(xs);
      CountOfSpec(xs);
      var top := MostCommon(cnt, n);
      FirstsIndex(top);
      assert PickFromSaved(col, n) == Firsts(top);
      if xs != [] {
        DistinctCovers(xs);
        assert xs[0] in cnt.keys;
      }
    }
  }

  /** Ties among equally frequent ids keep the order of first appearance in the saved tracks. */
  lemma PickFromSavedTies(c: seq<Option<string>>, n: nat, v: int)
    ensures Valid(CountOf(Present(c)))
    ensures WithKey(Ranked(CountOf(Present(c))), ByCount, (-v, 0)) == WithKey(Items(CountOf(Present(c))), ByCount, (-v, 0))
    ensures |PickFromSaved(Some(c), n)| <= |Ranked(CountOf(Present(c)))|
    ensures PickFromSaved(Some(c), n) == Firsts(Ranked(CountOf(Present(c)))[..|PickFromSaved(Some(c), n)|])
  {
    var cnt := CountOf(Present(c));
    CountOfSpec(Present(c));
    RankedTies(cnt, n, v);
    RankedMembers(cnt);
    var top := MostCommon(cnt, n);
    FirstsIndex(top);
    var r := Firsts(top);
    assert r == PickFromSaved(Some(c), n);
    assert |r| == |top|;
    assert top == Ranked(cnt)[..|r|];
  }

  /**
   * Both seed lists. When the saved tracks give no preference seeds, the
   * first `prefsMax` history seeds are used instead.
   */
  method PickSeeds(items: seq<Option<string>>, fallback: seq<string>, saved: Option<seq<Option<string>>>,
                   historyMax: nat, prefsMax: nat)
    returns (history: seq<string>, prefs: seq<string>)
    ensures history == Take(HistoryCandidates(items, fallback), historyMax)
    ensures PickFromSaved(saved, prefsMax) != [] ==> prefs == PickFromSaved(saved, prefsMax)
    ensures PickFromSaved(saved, prefsMax) == [] ==> prefs == Take(history, prefsMax)
  {
    history := PickFromProfile(items, fallback, historyMax);
    prefs := PickFromSaved(saved, prefsMax);
    if prefs == [] {
      prefs := Take(history, prefsMax);
    }
  }

  // ----------------------------------------------------------------- tracks

  datatype ArtistRef = ArtistRef(id: Option<string>, name: Option<string>)

  /** A track as the catalogue service returns it; absent keys are `None`. */
  datatype Track = Track(
    id: Option<string>,
    name: Option<string>,
    artists: seq<ArtistRef>,
    album: Option<string>,
    popularity: Option<int>)

  /** Which list a recommendation came from: `seed_top` or `by_related_top`. */
  datatype Tier = SeedTop | ByRelatedTop

  datatype Rec = Rec(
    trackId: Option<string>,
    name: Option<string>,
    artistId: Option<string>,
    artistName: Option<string>,
    album: Option<string>,
    popularity: Option<int>,
    source: Tier)

  /** The two catalogue calls: an artist's top tracks, and the ids of its related artists. */
  datatype Provider = Provider(topTracks: string -> seq<Track>, related: string -> seq<Option<string>>)

  datatype Config = Config(relatedPerSeed: nat, topPerArtist: nat, targetTracks: nat)

  /** The recommender's settings: related artists per seed, tracks per artist, target list length. */
  const Defaults := Config(12, 6, 150)
  const SeedsHistoryMax: nat := 12
  const SeedsPrefsMax: nat := 12
  const Market := "PL"

  /** `tracks_from_artist`: at most `per` of the artist's top tracks, none when the call fails. */
  function TracksFromArtist(api: Provider, artist: string, per: nat): (r: seq<Track>)
    ensures |r| == Min(per, |api.topTracks(artist)|)
    ensures |r| <= per
    ensures r == api.topTracks(artist)[..|r|]
  {
    Take(api.topTracks(artist), per)
  }

  /** `as_row`: the first credited artist names the row; a track without artists has none. */
  function AsRow(t: Track, source: Tier): (r: Rec)
    ensures r.trackId == t.id && r.name == t.name && r.album == t.album && r.popularity == t.popularity && r.source == source
    ensures t.artists == [] ==> r.artistId == None && r.artistName == None
    ensures t.artists != [] ==> r.artistId == t.artists[0].id && r.artistName == t.artists[0].name
  {
    var a0 := if t.artists != [] then t.artists[0] else ArtistRef(None, None);
    Rec(t.id, t.name, a0.id, a0.name, t.album, t.popularity, source)
  }

  function Rows(ts: seq<Track>, source: Tier): (r: seq<Rec>)
    ensures |r| == |ts|
    ensures forall i :: 0 <= i < |ts| ==> r[i] == AsRow(ts[i], source)
  {
    seq(|ts|, i requires 0 <= i < |ts| => AsRow(ts[i], source))
  }

  /** `for t in ts: rows.append(as_row(t, source))`. */
  method AppendRows(rows: seq<Rec>, ts: seq<Track>, source: Tier) returns (r: seq<Rec>)
    ensures r == rows + Rows(ts, source)
  {
    r := rows;
    var k := 0;
    while k < |ts|
      invariant 0 <= k <= |ts|
      invariant r == rows + Rows(ts[..k], source)
    {
      assert Rows(ts[..k + 1], source) == Rows(ts[..k], source) + [AsRow(ts[k], source)];
      r := r + [AsRow(ts[k], source)];
      k := k + 1;
    }
    assert ts[..k] == ts;
  }

  /** The related artists' ids, a missing one as "". */
  function IdTexts(ids: seq<Option<string>>): (r: seq<string>)
    ensures |r| == |ids|
    ensures forall i :: 0 <= i < |ids| ==> r[i] == IdText(ids[i])
  {
    seq(|ids|, i requires 0 <= i < |ids| => IdText(ids[i]))
  }

  /** `[a.get("id") for a in related if a.get("id")]`: the present, non-empty ids. */
  function PresentIds(ids: seq<Option<string>>): (r: seq<string>)
    ensures forall k :: 0 <= k < |r| ==> r[k] != ""
  {
    NonBlankSubseq(IdTexts(ids));
    NonBlank(IdTexts(ids))
  }

  /**
   * The present ids are the related artists' ids in their order, and no
   * present, non-empty id is dropped.
   */
  lemma PresentIdsOrder(ids: seq<Option<string>>)
    ensures IsSubseq(PresentIds(ids), IdTexts(ids))
    ensures forall i :: 0 <= i < |ids| && ids[i].Some? && ids[i].value != "" ==> ids[i].value in PresentIds(ids)
  {
    var xs := IdTexts(ids);
    NonBlankSubseq(xs);
    NonBlankCovers(xs);
    assert forall i :: 0 <= i < |ids| ==> xs[i] == IdText(ids[i]);
  }

  /** There is no present id exactly when every related artist lacks one or has "". */
  lemma PresentIdsEmpty(ids: seq<Option<string>>)
    ensures PresentIds(ids) == [] <==> forall i :: 0 <= i < |ids| ==> ids[i].None? || ids[i].value == ""
  {
    var xs := IdTexts(ids);
    NonBlankEmpty(xs);
    assert forall i :: 0 <= i < |ids| ==> xs[i] == IdText(ids[i]);
  }

  /** The related ids a seed may expand: the first `n` present ones, visited or not. */
  function RelatedIds(api: Provider, seed: string, n: nat): (r: seq<string>)
    ensures |r| == Min(n, |PresentIds(api.related(seed))|)
    ensures r == PresentIds(api.related(seed))[..|r|]
  {
    Take(PresentIds(api.related(seed)), n)
  }

  // ------------------------------------------------------------- expander

  /**
   * The expander's state: the collected rows, the `used_artists` set, and
   * the order in which related artists were expanded.
   */
  datatype Walk = Walk(rows: seq<Rec>, used: set<string>, expanded: seq<string>)

  const Start := Walk([], {}, [])

  /** One related id: skipped when already used, otherwise marked used and its top tracks collected. */
  function Visit(api: Provider, per: nat, w: Walk, rid: string): Walk
  {
    if rid in w.used then w
    else Walk(w.rows + Rows(TracksFromArtist(api, rid, per), ByRelatedTop), w.used + {rid}, w.expanded + [rid])
  }

  function VisitAll(api: Provider, per: nat, w: Walk, rids: seq<string>): Walk
  {
    if rids == [] then w else Visit(api, per, VisitAll(api, per, w, rids[..|rids| - 1]), rids[|rids| - 1])
  }

  /** One seed: its own top tracks, then its related artists when `relatedPerSeed > 0`. */
  function SeedStep(cfg: Config, api: Provider, w: Walk, seed: string): Walk
  {
    var w1 := w.(rows := w.rows + Rows(TracksFromArtist(api, seed, cfg.topPerArtist), SeedTop));
    if cfg.relatedPerSeed > 0 then VisitAll(api, cfg.topPerArtist, w1, RelatedIds(api, seed, cfg.relatedPerSeed)) else w1
  }

  /** The seed loop: stops right after the first seed that brings the rows to twice the target. */
  function Collect(cfg: Config, api: Provider, seeds: seq<string>, w: Walk): Walk
  {
    if seeds == [] then w
    else
      var w' := SeedStep(cfg, api, w, seeds[0]);
      if |w'.rows| >= 2 * cfg.targetTracks then w' else Collect(cfg, api, seeds[1..], w')
  }

  /** The seed loop without the early stop. */
  function Run(cfg: Config, api: Provider, seeds: seq<string>, w: Walk): Walk
  {
    if seeds == [] then w else Run(cfg, api, seeds[1..], SeedStep(cfg, api, w, seeds[0]))
  }

  // ---------------------------------------------------------- post-process

  /** `str(r.get("track_id") or "")`. */
  function TidOf(r: Rec): string
  {
    IdText(r.trackId)
  }

  function Tids(rs: seq<Rec>): (r: seq<string>)
    ensures |r| == |rs|
    ensures forall i :: 0 <= i < |rs| ==> r[i] == TidOf(rs[i])
  {
    seq(|rs|, i requires 0 <= i < |rs| => TidOf(rs[i]))
  }

  /** `dedup_rows`: the first row of each non-empty track id, in order. */
  function Dedup(rows: seq<Rec>): seq<Rec>
  {
    if rows == [] then []
    else
      var p := Dedup(rows[..|rows| - 1]);
      var x := rows[|rows| - 1];
      if TidOf(x) != "" && TidOf(x) !in Tids(p) then p + [x] else p
  }

  /** `dedup_rows` with its `seen` set. */
  method DedupRows(rows: seq<Rec>) returns (out: seq<Rec>)
    ensures out == Dedup(rows)
  {
    var seen: set<string> := {};
    out := [];
    var i := 0;
    while i < |rows|
      invariant 0 <= i <= |rows|
      invariant out == Dedup(rows[..i])
      invariant forall t :: t in seen <==> t in Tids(out)
    {
      var tid := TidOf(rows[i]);
      assert rows[..i + 1][..i] == rows[..i];
      if tid != "" && tid !in seen {
        seen := seen + {tid};
        assert Tids(out + [rows[i]]) == Tids(out) + [tid];
        out := out + [rows[i]];
      }
      i := i + 1;
    }
    assert rows[..i] == rows;
  }

  /** The deduplicated rows are a subsequence of the input with distinct, non-empty ids. */
  lemma {:induction false} DedupShape(rows: seq<Rec>)
    ensures IsSubseq(Dedup(rows), rows)
    ensures forall i, j :: 0 <= i < j < |Dedup(rows)| ==> TidOf(Dedup(rows)[i]) != TidOf(Dedup(rows)[j])
    ensures forall i :: 0 <= i < |Dedup(rows)| ==> TidOf(Dedup(rows)[i]) != ""
  {
    if rows != [] {
      var pre := rows[..|rows| - 1];
      var x := rows[|rows| - 1];
      var p := Dedup(pre);
      DedupShape(pre);
      assert rows == pre + [x];
      if TidOf(x) != "" && TidOf(x) !in Tids(p) {
        var out := p + [x];
        assert Dedup(rows) == out;
        assert IsSubseq(out, rows) by {
          SubseqAppendBoth(p, pre, x);
        }
        assert DistinctTids(out) by {
          forall i, j | 0 <= i < j < |out|
            ensures TidOf(out[i]) != TidOf(out[j])
          {
            if j == |p| {
              assert TidOf(out[i]) == Tids(p)[i];
            } else {
              assert out[i] == p[i] && out[j] == p[j];
            }
          }
        }
        assert forall i :: 0 <= i < |out| ==> TidOf(out[i]) != "" by {
          forall i | 0 <= i < |out|
            ensures TidOf(out[i]) != ""
          {
            if i < |p| {
              assert out[i] == p[i];
            }
          }
        }
      } else {
        assert Dedup(rows) == p;
        SubseqAppendRight(p, pre, x);
      }
    }
  }

  /** Every non-empty input id is kept. */
  lemma {:induction false} DedupCovers(rows: seq<Rec>)
    ensures forall i :: 0 <= i < |rows| && TidOf(rows[i]) != "" ==> TidOf(rows[i]) in Tids(Dedup(rows))
  {
    if rows != [] {
      var pre := rows[..|rows| - 1];
      var x := rows[|rows| - 1];
      var p := Dedup(pre);
      DedupCovers(pre);
      assert forall i :: 0 <= i < |pre| ==> rows[i] == pre[i];
      if TidOf(x) != "" && TidOf(x) !in Tids(p) {
        assert Tids(p + [x]) == Tids(p) + [TidOf(x)];
      }
    }
  }

  /** `rows[j]` is `x`, and no earlier row carries the id of `x`. */
  ghost predicate FirstCarrier(rows: seq<Rec>, x: Rec, j: int)
  {
    0 <= j < |rows| && rows[j] == x && forall i :: 0 <= i < j ==> TidOf(rows[i]) != TidOf(x)
  }

  /** `x` occurs in `rows` before any other row with the same id. */
  ghost predicate FirstOfItsId(rows: seq<Rec>, x: Rec)
  {
    exists j :: FirstCarrier(rows, x, j)
  }

  /** Each kept row is the first row that carries its id. */
  lemma DedupFirst(rows: seq<Rec>)
    ensures forall k :: 0 <= k < |Dedup(rows)| ==> FirstOfItsId(rows, Dedup(rows)[k])
  {
    forall k | 0 <= k < |Dedup(rows)|
      ensures FirstOfItsId(rows, Dedup(rows)[k])
    {
      var j := DedupFirstAt(rows, k);
    }
  }

  lemma {:induction false} DedupFirstAt(rows: seq<Rec>, k: nat) returns (j: nat)
    requires k < |Dedup(rows)|
    ensures FirstCarrier(rows, Dedup(rows)[k], j)
  {
    var pre := rows[..|rows| - 1];
    var x := rows[|rows| - 1];
    var p := Dedup(pre);
    assert rows == pre + [x];
    if k < |p| {
      j := DedupFirstAt(pre, k);
      CarrierExtends(pre, x, p[k], j);
      assert Dedup(rows)[k] == p[k];
    } else {
      assert TidOf(x) != "" && TidOf(x) !in Tids(p);
      DedupCovers(pre);
      forall i | 0 <= i < |pre|
        ensures TidOf(rows[i]) != TidOf(x)
      {
        assert rows[i] == pre[i];
        assert TidOf(pre[i]) != "" ==> TidOf(pre[i]) in Tids(p);
      }
      j := |pre|;
    }
  }

  lemma CarrierExtends(pre: seq<Rec>, x: Rec, y: Rec, j: int)
    requires FirstCarrier(pre, y, j)
    ensures FirstCarrier(pre + [x], y, j)
  {
    assert forall i :: 0 <= i < |pre| ==> (pre + [x])[i] == pre[i];
  }

  /**
   * `remove_owned`: without a catalogue (`None`) the rows are returned
   * unchanged; otherwise the rows whose id the catalogue owns are dropped.
   */
  function RemoveOwned(rows: seq<Rec>, owned: Option<set<string>>): seq<Rec>
  {
    match owned
    case None => rows
    case Some(o) => NotOwned(rows, o)
  }

  function NotOwned(rows: seq<Rec>, o: set<string>): seq<Rec>
  {
    if rows == [] then []
    else
      var x := rows[|rows| - 1];
      NotOwned(rows[..|rows| - 1], o) + (if TidOf(x) !in o then [x] else [])
  }

  /** The kept rows are a subsequence of the input, and none of them is owned. */
  lemma {:induction false} NotOwnedSpec(rows: seq<Rec>, o: set<string>)
    ensures IsSubseq(NotOwned(rows, o), rows)
    ensures forall i :: 0 <= i < |NotOwned(rows, o)| ==> TidOf(NotOwned(rows, o)[i]) !in o
  {
    if rows != [] {
      var pre := rows[..|rows| - 1];
      var x := rows[|rows| - 1];
      NotOwnedSpec(pre, o);
      assert rows == pre + [x];
      if TidOf(x) !in o {
        SubseqAppendBoth(NotOwned(pre, o), pre, x);
        assert NotOwned(rows, o) == NotOwned(pre, o) + [x];
      } else {
        SubseqAppendRight(NotOwned(pre, o), pre, x);
        assert NotOwned(rows, o) == NotOwned(pre, o);
      }
    }
  }

  /** No row outside the catalogue is dropped. */
  lemma {:induction false} NotOwnedCovers(rows: seq<Rec>, o: set<string>)
    ensures forall i :: 0 <= i < |rows| && TidOf(rows[i]) !in o ==> rows[i] in NotOwned(rows, o)
  {
    if rows != [] {
      var pre := rows[..|rows| - 1];
      NotOwnedCovers(pre, o);
      assert forall i :: 0 <= i < |pre| ==> rows[i] == pre[i];
    }
  }

  /**
   * Without a catalogue nothing is removed; with one, the kept rows are a
   * subsequence of the input, none of them owned, and every row outside the
   * catalogue is kept.
   */
  lemma RemoveOwnedSpec(rows: seq<Rec>, owned: Option<set<string>>)
    ensures owned.None? ==> RemoveOwned(rows, owned) == rows
    ensures IsSubseq(RemoveOwned(rows, owned), rows)
    ensures owned.Some? ==> forall i :: 0 <= i < |RemoveOwned(rows, owned)| ==> TidOf(RemoveOwned(rows, owned)[i]) !in owned.value
  {
    match owned
    case None => SubseqRefl(rows);
    case Some(o) => NotOwnedSpec(rows, o);
  }

  lemma RemoveOwnedCovers(rows: seq<Rec>, o: set<string>)
    ensures forall i :: 0 <= i < |rows| && TidOf(rows[i]) !in o ==> rows[i] in RemoveOwned(rows, Some(o))
  {
    NotOwnedCovers(rows, o);
  }

  lemma {:induction false} SubseqRefl<T>(s: seq<T>)
    ensures IsSubseq(s, s)
  {
    if s != [] {
      SubseqRefl(s[..|s| - 1]);
    }
  }

  /** `r.get("popularity") or 0`. */
  function Pop(r: Rec): int
  {
    match r.popularity
    case None => 0
    case Some(p) => p
  }

  /** `sort_key`: seed tracks first, then by popularity, highest first. */
  function RecKey(r: Rec): Key
  {
    (if r.source == SeedTop then 0 else 1, -Pop(r))
  }

  /** Dedup, drop owned tracks, stable sort by `sort_key`, cut to the target. */
  function Finalize(rows: seq<Rec>, owned: Option<set<string>>, target: nat): seq<Rec>
  {
    Take(SortBy(RemoveOwned(Dedup(rows), owned), RecKey), target)
  }

  /** The final list has at most `target` rows, with distinct ids. */
  lemma FinalizeDistinct(rows: seq<Rec>, owned: Option<set<string>>, target: nat)
    ensures var r := Finalize(rows, owned, target);
      && |r| <= target
      && (forall i, j :: 0 <= i < j < |r| ==> TidOf(r[i]) != TidOf(r[j]))
  {
    var d := Dedup(rows);
    var kept := RemoveOwned(d, owned);
    var sorted := SortBy(kept, RecKey);
    assert DistinctTids(d) by {
      DedupShape(rows);
    }
    assert DistinctTids(kept) by {
      RemoveOwnedSpec(d, owned);
      SubseqKeepsDistinct(kept, d);
    }
    assert DistinctTids(sorted) by {
      PermutationKeepsDistinctImages(kept, sorted, TidOf);
    }
    var r := Take(sorted, target);
    assert forall i :: 0 <= i < |r| ==> r[i] == sorted[i];
  }

  ghost predicate DistinctTids(s: seq<Rec>)
  {
    forall i, j :: 0 <= i < j < |s| ==> TidOf(s[i]) != TidOf(s[j])
  }

  /** The row at position `i` of the sorted, filtered list is a collected row that is kept by the filters. */
  lemma SortedFrom(rows: seq<Rec>, owned: Option<set<string>>, i: nat) returns (b: nat)
    requires i < |SortBy(RemoveOwned(Dedup(rows), owned), RecKey)|
    ensures var x := SortBy(RemoveOwned(Dedup(rows), owned), RecKey)[i];
      && b < |Dedup(rows)| && Dedup(rows)[b] == x
      && x in RemoveOwned(Dedup(rows), owned)
  {
    var d := Dedup(rows);
    var kept := RemoveOwned(d, owned);
    var sorted := SortBy(kept, RecKey);
    SortByMembers(kept, RecKey);
    assert sorted[i] in multiset(kept);
    var a :| 0 <= a < |kept| && kept[a] == sorted[i];
    RemoveOwnedSpec(d, owned);
    b := SubseqFrom(kept, d, a);
  }

  /** Every final row is a collected row with a non-empty id, and none is owned. */
  lemma FinalizeFrom(rows: seq<Rec>, owned: Option<set<string>>, target: nat)
    ensures var r := Finalize(rows, owned, target);
      && (forall i :: 0 <= i < |r| ==> TidOf(r[i]) != "" && r[i] in rows)
      && (owned.Some? ==> forall i :: 0 <= i < |r| ==> TidOf(r[i]) !in owned.value)
  {
    var d := Dedup(rows);
    var kept := RemoveOwned(d, owned);
    var sorted := SortBy(kept, RecKey);
    var r := Finalize(rows, owned, target);
    DedupShape(rows);
    RemoveOwnedSpec(d, owned);
    forall i | 0 <= i < |r|
      ensures TidOf(r[i]) != "" && r[i] in rows
      ensures owned.Some? ==> TidOf(r[i]) !in owned.value
    {
      assert r[i] == sorted[i];
      var b := SortedFrom(rows, owned, i);
      var j := SubseqFrom(d, rows, b);
      var a :| 0 <= a < |kept| && kept[a] == r[i];
    }
  }

  /** Seed tracks come before related tracks and, within a tier, popularity does not increase. */
  lemma FinalizeOrder(rows: seq<Rec>, owned: Option<set<string>>, target: nat)
    ensures var r := Finalize(rows, owned, target);
      && (forall i, j :: 0 <= i < j < |r| && r[i].source == ByRelatedTop ==> r[j].source == ByRelatedTop)
      && (forall i, j :: 0 <= i < j < |r| && r[i].source == r[j].source ==> Pop(r[i]) >= Pop(r[j]))
  {
    var sorted := SortBy(RemoveOwned(Dedup(rows), owned), RecKey);
    var r := Finalize(rows, owned, target);
    forall i, j | 0 <= i < j < |r|
      ensures KeyLe(RecKey(r[i]), RecKey(r[j]))
    {
      assert r[i] == sorted[i] && r[j] == sorted[j];
    }
  }

  /** A subsequence of a list with distinct ids has distinct ids. */
  lemma {:induction false} SubseqKeepsDistinct(a: seq<Rec>, b: seq<Rec>)
    requires IsSubseq(a, b)
    requires forall i, j :: 0 <= i < j < |b| ==> TidOf(b[i]) != TidOf(b[j])
    ensures forall i, j :: 0 <= i < j < |a| ==> TidOf(a[i]) != TidOf(a[j])
    decreases |b|
  {
    if a != [] {
      var b' := b[..|b| - 1];
      assert forall i :: 0 <= i < |b'| ==> b[i] == b'[i];
      if a[|a| - 1] == b[|b| - 1] {
        var a' := a[..|a| - 1];
        SubseqKeepsDistinct(a', b');
        SubseqMembers(a', b');
        forall i | 0 <= i < |a'|
          ensures TidOf(a[i]) != TidOf(a[|a| - 1])
        {
          assert a[i] == a'[i] && a'[i] in b';
          var m :| 0 <= m < |b'| && b'[m] == a'[i];
          assert TidOf(b[m]) != TidOf(b[|b| - 1]);
        }
      } else {
        SubseqKeepsDistinct(a, b');
      }
    }
  }

  /**
   * Sorting keeps the collection order among rows with equal keys, the
   * final list is a prefix of the sorted list, and nothing is lost when the
   * filtered list fits in the target.
   */
  lemma FinalizeStable(rows: seq<Rec>, owned: Option<set<string>>, target: nat, k: Key)
    ensures var kept := RemoveOwned(Dedup(rows), owned);
      && WithKey(SortBy(kept, RecKey), RecKey, k) == WithKey(kept, RecKey, k)
      && Finalize(rows, owned, target) == SortBy(kept, RecKey)[..|Finalize(rows, owned, target)|]
      && (|kept| <= target ==> multiset(Finalize(rows, owned, target)) == multiset(kept))
  {
    var kept := RemoveOwned(Dedup(rows), owned);
    SortByStable(kept, RecKey, k);
    SortByMembers(kept, RecKey);
  }

  // ------------------------------------------------------------- the loop

  datatype Meta = Meta(seeds: seq<string>, collected: nat, perArtistLimit: nat, relatedPerSeed: nat, market: string)

  /**
   * `gen_for_seeds`: the seed loop with its shared `used_artists` set and
   * early stop, followed by dedup, owned-track removal, sorting and the cut.
   */
  method GenForSeeds(cfg: Config, api: Provider, seeds: seq<string>, owned: Option<set<string>>)
    returns (recs: seq<Rec>, meta: Meta)
    ensures recs == Finalize(Collect(cfg, api, seeds, Start).rows, owned, cfg.targetTracks)
    ensures meta == Meta(seeds, |recs|, cfg.topPerArtist, cfg.relatedPerSeed, Market)
  {
    var rows: seq<Rec> := [];
    var used: set<string> := {};
    ghost var expanded: seq<string> := [];
    var i := 0;
    while i < |seeds|
      invariant 0 <= i <= |seeds|
      invariant Collect(cfg, api, seeds, Start) == Collect(cfg, api, seeds[i..], Walk(rows, used, expanded))
    {
      ghost var before := Walk(rows, used, expanded);
      var seed := seeds[i];
      rows := AppendRows(rows, TracksFromArtist(api, seed, cfg.topPerArtist), SeedTop);
      if cfg.relatedPerSeed > 0 {
        var relIds := RelatedIds(api, seed, cfg.relatedPerSeed);
        ghost var w1 := Walk(rows, used, expanded);
        var m := 0;
        while m < |relIds|
          invariant 0 <= m <= |relIds|
          invariant Walk(rows, used, expanded) == VisitAll(api, cfg.topPerArtist, w1, relIds[..m])
        {
          var rid := relIds[m];
          assert relIds[..m + 1][..m] == relIds[..m];
          if rid in used {
            m := m + 1;
            continue;
          }
          used := used + {rid};
          expanded := expanded + [rid];
          rows := AppendRows(rows, TracksFromArtist(api, rid, cfg.topPerArtist), ByRelatedTop);
          m := m + 1;
        }
        assert relIds[..m] == relIds;
      }
      assert Walk(rows, used, expanded) == SeedStep(cfg, api, before, seed);
      assert seeds[i..][1..] == seeds[i + 1..];
      i := i + 1;
      if |rows| >= 2 * cfg.targetTracks {
        break;
      }
    }
    assert Collect(cfg, api, seeds, Start) == Walk(rows, used, expanded);
    rows := DedupRows(rows);
    rows := RemoveOwned(rows, owned);
    rows := SortBy(rows, RecKey);
    if |rows| > cfg.targetTracks {
      rows := rows[..cfg.targetTracks];
    }
    recs := rows;
    meta := Meta(seeds, |recs|, cfg.topPerArtist, cfg.relatedPerSeed, Market);
  }

  /**
   * `main` without its file I/O: both seed lists with the default limits,
   * then one recommendation list for each.
   */
  method Recommend(api: Provider, items: seq<Option<string>>, fallback: seq<string>,
                   saved: Option<seq<Option<string>>>, owned: Option<set<string>>)
    returns (hist: seq<Rec>, prefs: seq<Rec>, histMeta: Meta, prefsMeta: Meta)
    ensures var (hs, ps) := SeedLists(items, fallback, saved);
      && hist == Finalize(Collect(Defaults, api, hs, Start).rows, owned, Defaults.targetTracks)
      && prefs == Finalize(Collect(Defaults, api, ps, Start).rows, owned, Defaults.targetTracks)
      && histMeta.seeds == hs && prefsMeta.seeds == ps
  {
    var hs, ps := PickSeeds(items, fallback, saved, SeedsHistoryMax, SeedsPrefsMax);
    hist, histMeta := GenForSeeds(Defaults, api, hs, owned);
    prefs, prefsMeta := GenForSeeds(Defaults, api, ps, owned);
  }

  /** The two seed lists `main` uses. */
  function SeedLists(items: seq<Option<string>>, fallback: seq<string>, saved: Option<seq<Option<string>>>): (seq<string>, seq<string>)
  {
    var hs := Take(HistoryCandidates(items, fallback), SeedsHistoryMax);
    var ps := PickFromSaved(saved, SeedsPrefsMax);
    (hs, if ps != [] then ps else Take(hs, SeedsPrefsMax))
  }

  /**
   * Both seed lists hold at most 12 ids; the preference seeds are the
   * most-saved artists, or the first history seeds when the saved tracks
   * give none.
   */
  lemma SeedListsSpec(items: seq<Option<string>>, fallback: seq<string>, saved: Option<seq<Option<string>>>)
    ensures var (hs, ps) := SeedLists(items, fallback, saved);
      && |hs| <= SeedsHistoryMax && |ps| <= SeedsPrefsMax
      && (forall k :: 0 <= k < |hs| ==> Token(hs[k]))
      && (PickFromSaved(saved, SeedsPrefsMax) == [] ==> ps == hs[..Min(SeedsPrefsMax, |hs|)])
      && (saved.Some? && Present(saved.value) != [] ==> ps == PickFromSaved(saved, SeedsPrefsMax))
  {
    HistorySeeds(items, fallback, SeedsHistoryMax);
    PickFromSavedEmpty(saved, SeedsPrefsMax);
    if saved.Some? {
      PickFromSavedRanked(saved.value, SeedsPrefsMax);
    }
  }

  // ------------------------------------------------------ expander facts

  /** `used_artists` is exactly the set of expanded artists, each expanded once. */
  ghost predicate Tracked(w: Walk)
  {
    NoDup(w.expanded) && forall x :: x in w.used <==> x in w.expanded
  }

  lemma {:induction false} VisitAllTracked(api: Provider, per: nat, w: Walk, rids: seq<string>)
    requires Tracked(w)
    ensures Tracked(VisitAll(api, per, w, rids))
    ensures forall x :: x in VisitAll(api, per, w, rids).expanded ==> x in w.expanded || x in rids
    ensures |VisitAll(api, per, w, rids).expanded| >= |w.expanded|
    ensures VisitAll(api, per, w, rids).expanded[..|w.expanded|] == w.expanded
  {
    if rids != [] {
      var p := rids[..|rids| - 1];
      VisitAllTracked(api, per, w, p);
      var v := VisitAll(api, per, w, p);
      var rid := rids[|rids| - 1];
      assert rids == p + [rid];
      if rid !in v.used {
        assert (v.expanded + [rid])[..|w.expanded|] == v.expanded[..|w.expanded|];
      }
    }
  }

  /** After the related loop every listed id is in `used_artists`, and no id has left it. */
  lemma {:induction false} VisitAllCovers(api: Provider, per: nat, w: Walk, rids: seq<string>)
    ensures w.used <= VisitAll(api, per, w, rids).used
    ensures forall k :: 0 <= k < |rids| ==> rids[k] in VisitAll(api, per, w, rids).used
  {
    if rids != [] {
      var p := rids[..|rids| - 1];
      VisitAllCovers(api, per, w, p);
      assert forall k :: 0 <= k < |p| ==> rids[k] == p[k];
    }
  }

  /** After one seed every one of its related ids is used when expansion is on. */
  lemma SeedStepCovers(cfg: Config, api: Provider, w: Walk, seed: string)
    ensures w.used <= SeedStep(cfg, api, w, seed).used
    ensures cfg.relatedPerSeed > 0 ==> forall k :: 0 <= k < |RelatedIds(api, seed, cfg.relatedPerSeed)| ==>
      RelatedIds(api, seed, cfg.relatedPerSeed)[k] in SeedStep(cfg, api, w, seed).used
  {
    var w1 := w.(rows := w.rows + Rows(TracksFromArtist(api, seed, cfg.topPerArtist), SeedTop));
    if cfg.relatedPerSeed > 0 {
      VisitAllCovers(api, cfg.topPerArtist, w1, RelatedIds(api, seed, cfg.relatedPerSeed));
    }
  }

  lemma SeedStepTracked(cfg: Config, api: Provider, w: Walk, seed: string)
    requires Tracked(w)
    ensures Tracked(SeedStep(cfg, api, w, seed))
    ensures forall x :: x in SeedStep(cfg, api, w, seed).expanded ==>
      x in w.expanded || (cfg.relatedPerSeed > 0 && x in RelatedIds(api, seed, cfg.relatedPerSeed))
    ensures cfg.relatedPerSeed == 0 ==> SeedStep(cfg, api, w, seed).expanded == w.expanded
  {
    var w1 := w.(rows := w.rows + Rows(TracksFromArtist(api, seed, cfg.topPerArtist), SeedTop));
    if cfg.relatedPerSeed > 0 {
      VisitAllTracked(api, cfg.topPerArtist, w1, RelatedIds(api, seed, cfg.relatedPerSeed));
    }
  }

  /**
   * Across a whole run every related artist is expanded at most once, the
   * used set is exactly the expanded artists, each expanded artist is among
   * the first `relatedPerSeed` related ids of some seed, and none is
   * expanded when `relatedPerSeed` is 0.
   */
  lemma {:induction false} CollectExpansions(cfg: Config, api: Provider, seeds: seq<string>, w: Walk)
    requires Tracked(w)
    ensures Tracked(Collect(cfg, api, seeds, w))
    ensures forall x :: x in Collect(cfg, api, seeds, w).expanded ==>
      x in w.expanded || exists j :: 0 <= j < |seeds| && x in RelatedIds(api, seeds[j], cfg.relatedPerSeed)
    ensures cfg.relatedPerSeed == 0 ==> Collect(cfg, api, seeds, w).expanded == w.expanded
  {
    if seeds != [] {
      var w' := SeedStep(cfg, api, w, seeds[0]);
      SeedStepTracked(cfg, api, w, seeds[0]);
      if |w'.rows| < 2 * cfg.targetTracks {
        CollectExpansions(cfg, api, seeds[1..], w');
        forall x | x in Collect(cfg, api, seeds, w).expanded
          ensures x in w.expanded || exists j :: 0 <= j < |seeds| && x in RelatedIds(api, seeds[j], cfg.relatedPerSeed)
        {
          if !(x in w'.expanded) {
            var j :| 0 <= j < |seeds[1..]| && x in RelatedIds(api, seeds[1..][j], cfg.relatedPerSeed);
            assert seeds[1..][j] == seeds[j + 1];
          }
        }
      }
    }
  }

  lemma ExpansionsFromStart(cfg: Config, api: Provider, seeds: seq<string>)
    ensures NoDup(Collect(cfg, api, seeds, Start).expanded)
    ensures forall x :: x in Collect(cfg, api, seeds, Start).used <==> x in Collect(cfg, api, seeds, Start).expanded
    ensures forall x :: x in Collect(cfg, api, seeds, Start).expanded ==>
      exists j :: 0 <= j < |seeds| && x in RelatedIds(api, seeds[j], cfg.relatedPerSeed)
    ensures cfg.relatedPerSeed == 0 ==> Collect(cfg, api, seeds, Start).used == {}
  {
    CollectExpansions(cfg, api, seeds, Start);
  }

  /**
   * The early stop: when seed `j` is the first whose step brings the rows to
   * at least twice the target, the loop's result is the run over the first
   * `j` seeds; when there is none, it is the run over all of them.
   */
  lemma {:induction false} EarlyStop(cfg: Config, api: Provider, seeds: seq<string>, w: Walk, j: nat)
    requires 0 < j <= |seeds|
    requires |Run(cfg, api, seeds[..j], w).rows| >= 2 * cfg.targetTracks
    requires forall m :: 0 < m < j ==> |Run(cfg, api, seeds[..m], w).rows| < 2 * cfg.targetTracks
    ensures Collect(cfg, api, seeds, w) == Run(cfg, api, seeds[..j], w)
  {
    var w' := SeedStep(cfg, api, w, seeds[0]);
    assert seeds[..j][1..] == seeds[1..][..j - 1];
    if j == 1 {
      assert Run(cfg, api, seeds[..1], w) == w';
    } else {
      assert seeds[..1][1..] == [];
      assert Run(cfg, api, seeds[..1], w) == w';
      forall m | 0 < m < j - 1
        ensures |Run(cfg, api, seeds[1..][..m], w').rows| < 2 * cfg.targetTracks
      {
        assert seeds[..m + 1][1..] == seeds[1..][..m];
      }
      EarlyStop(cfg, api, seeds[1..], w', j - 1);
    }
  }

  lemma {:induction false} NoEarlyStop(cfg: Config, api: Provider, seeds: seq<string>, w: Walk)
    requires forall m :: 0 < m <= |seeds| ==> |Run(cfg, api, seeds[..m], w).rows| < 2 * cfg.targetTracks
    ensures Collect(cfg, api, seeds, w) == Run(cfg, api, seeds, w)
  {
    if seeds != [] {
      var w' := SeedStep(cfg, api, w, seeds[0]);
      assert seeds[..1][1..] == [];
      assert Run(cfg, api, seeds[..1], w) == w';
      forall m | 0 < m <= |seeds| - 1
        ensures |Run(cfg, api, seeds[1..][..m], w').rows| < 2 * cfg.targetTracks
      {
        assert seeds[..m + 1][1..] == seeds[1..][..m];
      }
      NoEarlyStop(cfg, api, seeds[1..], w');
    }
  }
}
