/**
 The anime id bridge: an index of cross-id records, and the step that fills the missing
 ids of an entry from the first record one of its ids leads to.
 */
module AnimeBridge {
  import opened Prelude

  /** The id families, in lookup order. */
  datatype Tier = Mal | Anilist | Kitsu | Imdb | Tmdb

  datatype Ids = Ids(
    mal: Option<string>,
    anilist: Option<string>,
    kitsu: Option<string>,
    imdb: Option<string>,
    tmdb: Option<string>)

  type Table = map<string, Ids>

  datatype Bridge = Bridge(byMal: Table, byAnilist: Table, byKitsu: Table, byImdb: Table, byTmdb: Table)

  function Rank(t: Tier): nat {
    match t case Mal => 0 case Anilist => 1 case Kitsu => 2 case Imdb => 3 case Tmdb => 4
  }

  function Get(ids: Ids, t: Tier): Option<string> {
    match t
    case Mal => ids.mal
    case Anilist => ids.anilist
    case Kitsu => ids.kitsu
    case Imdb => ids.imdb
    case Tmdb => ids.tmdb
  }

  function TableOf(b: Bridge, t: Tier): Table {
    match t
    case Mal => b.byMal
    case Anilist => b.byAnilist
    case Kitsu => b.byKitsu
    case Imdb => b.byImdb
    case Tmdb => b.byTmdb
  }

  /** `lookup_by_…` on an optional id; the empty id never hits. */
  function Lookup(b: Bridge, t: Tier, id: Option<string>): Option<Ids> {
    if id.Some? && id.value != "" && id.value in TableOf(b, t) then Some(TableOf(b, t)[id.value]) else None
  }

  function OrElse<T>(a: Option<T>, b: Option<T>): Option<T> {
    if a.Some? then a else b
  }

  /** The first record that one of the entry's ids leads to. */
  function Resolve(b: Bridge, e: Ids): Option<Ids> {
    OrElse(Lookup(b, Mal, e.mal),
    OrElse(Lookup(b, Anilist, e.anilist),
    OrElse(Lookup(b, Kitsu, e.kitsu),
    OrElse(Lookup(b, Imdb, e.imdb),
           Lookup(b, Tmdb, e.tmdb)))))
  }

  function Fill(e: Ids, r: Ids): Ids {
    Ids(OrElse(e.mal, r.mal), OrElse(e.anilist, r.anilist), OrElse(e.kitsu, r.kitsu),
        OrElse(e.imdb, r.imdb), OrElse(e.tmdb, r.tmdb))
  }

  function Enriched(b: Bridge, e: Ids): Ids {
    match Resolve(b, e)
    case None => e
    case Some(r) => Fill(e, r)
  }

  /** The entry that `enrich_entry` fills in place; its other fields are not touched. */
  class MediaEntry {
    var malId: Option<string>
    var anilistId: Option<string>
    var kitsuId: Option<string>
    var imdbId: Option<string>
    var tmdbId: Option<string>
    var title: string
    var year: Option<string>

    function CurrentIds(): Ids
      reads this
    {
      Ids(malId, anilistId, kitsuId, imdbId, tmdbId)
    }

    constructor (ids: Ids, title: string, year: Option<string>)
      ensures CurrentIds() == ids && this.title == title && this.year == year
    {
      malId, anilistId, kitsuId, imdbId, tmdbId := ids.mal, ids.anilist, ids.kitsu, ids.imdb, ids.tmdb;
      this.title, this.year := title, year;
    }

    method EnrichEntry(bridge: Bridge)
      modifies `malId, `anilistId, `kitsuId, `imdbId, `tmdbId
      ensures CurrentIds() == Enriched(bridge, old(CurrentIds()))
    {
      var record := Lookup(bridge, Mal, malId);
      if record.None? { record := Lookup(bridge, Anilist, anilistId); }
      if record.None? { record := Lookup(bridge, Kitsu, kitsuId); }
      if record.None? { record := Lookup(bridge, Imdb, imdbId); }
      if record.None? { record := Lookup(bridge, Tmdb, tmdbId); }
      if record.None? {
        return;
      }
      var r := record.value;
      if malId.None? { malId := r.mal; }
      if anilistId.None? { anilistId := r.anilist; }
      if kitsuId.None? { kitsuId := r.kitsu; }
      if imdbId.None? { imdbId := r.imdb; }
      if tmdbId.None? { tmdbId := r.tmdb; }
    }
  }

  // ── What enrichment keeps and adds ──────────────────────────────────────

  /** The resolved record comes from the hit of lowest rank. */
  lemma ResolveIsFirstHit(b: Bridge, e: Ids)
    ensures Resolve(b, e).None? <==> forall t :: Lookup(b, t, Get(e, t)).None?
    ensures Resolve(b, e).Some? ==>
              exists j :: Lookup(b, j, Get(e, j)) == Resolve(b, e)
                          && forall i :: Rank(i) < Rank(j) ==> Lookup(b, i, Get(e, i)).None?
  {
    forall t ensures Resolve(b, e).None? ==> Lookup(b, t, Get(e, t)).None? { match t { case _ => } }
    if Lookup(b, Mal, Get(e, Mal)).Some? { assert Lookup(b, Mal, Get(e, Mal)) == Resolve(b, e); }
    else if Lookup(b, Anilist, Get(e, Anilist)).Some? { assert Lookup(b, Anilist, Get(e, Anilist)) == Resolve(b, e); }
    else if Lookup(b, Kitsu, Get(e, Kitsu)).Some? { assert Lookup(b, Kitsu, Get(e, Kitsu)) == Resolve(b, e); }
    else if Lookup(b, Imdb, Get(e, Imdb)).Some? { assert Lookup(b, Imdb, Get(e, Imdb)) == Resolve(b, e); }
    else if Lookup(b, Tmdb, Get(e, Tmdb)).Some? { assert Lookup(b, Tmdb, Get(e, Tmdb)) == Resolve(b, e); }
  }

  /** A present id, empty or not, is never changed; a missing one is taken from the record. */
  lemma PresentIdsStay(b: Bridge, e: Ids, t: Tier)
    ensures Get(e, t).Some? ==> Get(Enriched(b, e), t) == Get(e, t)
    ensures Get(e, t).None? && Resolve(b, e).Some? ==> Get(Enriched(b, e), t) == Get(Resolve(b, e).value, t)
    ensures Get(e, t).None? && Resolve(b, e).None? ==> Get(Enriched(b, e), t).None?
  {
  }

  lemma SameIds(a: Ids, b: Ids)
    requires forall t :: Get(a, t) == Get(b, t)
    ensures a == b
  {
    assert Get(a, Mal) == Get(b, Mal) && Get(a, Anilist) == Get(b, Anilist) && Get(a, Kitsu) == Get(b, Kitsu);
    assert Get(a, Imdb) == Get(b, Imdb) && Get(a, Tmdb) == Get(b, Tmdb);
  }

  // ── Idempotence ─────────────────────────────────────────────────────────

  /** Following a record's own higher-ranked id to another record fills nothing new: for `r` found
      in table `j`, every record that an id of `r` ranked before `j` leads to has none of the ids
      that `r` lacks (the id of family `j` aside, which the entry had). */
  ghost predicate LearnsNothingUpward(b: Bridge) {
    forall j, x, i, f {:trigger LearnsNothing(b, j, x, i, f)} :: LearnsNothing(b, j, x, i, f)
  }

  predicate LearnsNothing(b: Bridge, j: Tier, x: string, i: Tier, f: Tier) {
    Lookup(b, j, Some(x)).Some? && Rank(i) < Rank(j) && f != j ==>
      var r := Lookup(b, j, Some(x)).value;
      Lookup(b, i, Get(r, i)).Some? && Get(r, f).None? ==> Get(Lookup(b, i, Get(r, i)).value, f).None?
  }

  ghost predicate Idempotent(b: Bridge) {
    forall e :: Enriched(b, Enriched(b, e)) == Enriched(b, e)
  }

  /** The second pass finds the first pass's record again, or one that an id of higher rank in
      that record leads to. */
  lemma SecondPassResolves(b: Bridge, e: Ids) returns (j: Tier, i: Tier)
    requires Resolve(b, e).Some?
    ensures Lookup(b, j, Get(e, j)) == Resolve(b, e)
    ensures var r := Resolve(b, e).value;
            || Resolve(b, Enriched(b, e)) == Some(r)
            || (Rank(i) < Rank(j) && Lookup(b, i, Get(r, i)) == Resolve(b, Enriched(b, e)))
    ensures Resolve(b, Enriched(b, e)).Some?
  {
    ResolveIsFirstHit(b, e);
    var e' := Enriched(b, e);
    j :| Lookup(b, j, Get(e, j)) == Resolve(b, e)
         && forall h :: Rank(h) < Rank(j) ==> Lookup(b, h, Get(e, h)).None?;
    PresentIdsStay(b, e, j);
    ResolveIsFirstHit(b, e');
    assert Lookup(b, j, Get(e', j)).Some?;
    i :| Lookup(b, i, Get(e', i)) == Resolve(b, e')
         && forall h :: Rank(h) < Rank(i) ==> Lookup(b, h, Get(e', h)).None?;
    PresentIdsStay(b, e, i);
    if Rank(i) >= Rank(j) {
      SameRank(i, j);
    }
  }

  lemma SecondPassFillsNothing(b: Bridge, e: Ids, f: Tier)
    requires LearnsNothingUpward(b)
    ensures Get(Enriched(b, Enriched(b, e)), f) == Get(Enriched(b, e), f)
  {
    var e' := Enriched(b, e);
    PresentIdsStay(b, e, f);
    PresentIdsStay(b, e', f);
    if Resolve(b, e).Some? && Get(e', f).None? {
      var j, i := SecondPassResolves(b, e);
      assert f != j;
      assert LearnsNothing(b, j, Get(e, j).value, i, f);
    }
  }

  lemma SameRank(i: Tier, j: Tier)
    requires Rank(i) == Rank(j)
    ensures i == j
  {
  }

  /** An id that hits nothing but blocks filling: present and empty, unless the record has none. */
  function Block(r: Ids, i: Tier, t: Tier): Option<string> {
    if Rank(t) < Rank(i) && Get(r, t).Some? then Some("") else None
  }

  /** The entry that reaches `r` through id `x` of family `j` and would next follow family `i`. */
  function Probe(r: Ids, j: Tier, x: string, i: Tier): Ids {
    Ids(if j == Mal then Some(x) else Block(r, i, Mal),
        if j == Anilist then Some(x) else Block(r, i, Anilist),
        if j == Kitsu then Some(x) else Block(r, i, Kitsu),
        if j == Imdb then Some(x) else Block(r, i, Imdb),
        if j == Tmdb then Some(x) else Block(r, i, Tmdb))
  }

  lemma ProbeGet(r: Ids, j: Tier, x: string, i: Tier, t: Tier)
    ensures Get(Probe(r, j, x, i), t) == if t == j then Some(x) else Block(r, i, t)
  {
  }

  lemma HitIsUnique(b: Bridge, e: Ids, j: Tier)
    requires Lookup(b, j, Get(e, j)).Some?
    requires forall i :: Rank(i) < Rank(j) ==> Lookup(b, i, Get(e, i)).None?
    ensures Resolve(b, e) == Lookup(b, j, Get(e, j))
  {
    ResolveIsFirstHit(b, e);
    var k :| Lookup(b, k, Get(e, k)) == Resolve(b, e)
             && forall i :: Rank(i) < Rank(k) ==> Lookup(b, i, Get(e, i)).None?;
    if Rank(k) == Rank(j) {
      SameRank(k, j);
    }
  }

  lemma ProbeLearns(b: Bridge, j: Tier, x: string, i: Tier, f: Tier)
    requires !LearnsNothing(b, j, x, i, f)
    ensures !Idempotent(b)
  {
    var r := Lookup(b, j, Some(x)).value;
    var r' := Lookup(b, i, Get(r, i)).value;
    var e := Probe(r, j, x, i);
    forall t ensures Get(e, t) == if t == j then Some(x) else Block(r, i, t) { ProbeGet(r, j, x, i, t); }
    HitIsUnique(b, e, j);
    var e' := Enriched(b, e);
    forall t | Rank(t) < Rank(i)
      ensures Lookup(b, t, Get(e', t)).None?
    {
      PresentIdsStay(b, e, t);
    }
    PresentIdsStay(b, e, i);
    assert Get(e', i) == Get(r, i);
    HitIsUnique(b, e', i);
    PresentIdsStay(b, e, f);
    PresentIdsStay(b, e', f);
    assert Get(Enriched(b, e'), f) != Get(e', f);
  }

  /** Exactly when running enrichment twice is the same as running it once, for every entry. */
  lemma IdempotentExactlyWhen(b: Bridge)
    ensures Idempotent(b) <==> LearnsNothingUpward(b)
  {
    if LearnsNothingUpward(b) {
      forall e
        ensures Enriched(b, Enriched(b, e)) == Enriched(b, e)
      {
        forall f ensures Get(Enriched(b, Enriched(b, e)), f) == Get(Enriched(b, e), f) {
          SecondPassFillsNothing(b, e, f);
        }
        SameIds(Enriched(b, Enriched(b, e)), Enriched(b, e));
      }
    } else {
      var j, x, i, f :| !LearnsNothing(b, j, x, i, f);
      ProbeLearns(b, j, x, i, f);
    }
  }

  /** Each record's mal, anilist, kitsu and imdb ids look that same record up; any number of
      records may share a tmdb id. */
  ghost predicate Coherent(b: Bridge) {
    forall j, x, i {:trigger Lookup(b, j, Some(x)), Rank(i)} ::
      Lookup(b, j, Some(x)).Some? && i != Tmdb ==>
        var r := Lookup(b, j, Some(x)).value;
        Get(r, i).Some? ==> Lookup(b, i, Get(r, i)) == Some(r)
  }

  lemma CoherentIsIdempotent(b: Bridge)
    requires Coherent(b)
    ensures Idempotent(b)
  {
    forall j, x, i, f
      ensures LearnsNothing(b, j, x, i, f)
    {
      if Lookup(b, j, Some(x)).Some? && Rank(i) < Rank(j) {
        var r := Lookup(b, j, Some(x)).value;
        assert i != Tmdb;
        assert Get(r, i).Some? ==> Lookup(b, i, Get(r, i)) == Some(r);
      }
    }
    IdempotentExactlyWhen(b);
  }

  // ── Building the index ──────────────────────────────────────────────────

  predicate HasAnimeId(r: Ids) { r.mal.Some? || r.anilist.Some? || r.kitsu.Some? }

  function Entered(table: Table, id: Option<string>, r: Ids): Table {
    if id.Some? then table[id.value := r] else table
  }

  function IndexOne(b: Bridge, r: Ids): Bridge {
    if HasAnimeId(r)
    then Bridge(Entered(b.byMal, r.mal, r), Entered(b.byAnilist, r.anilist, r), Entered(b.byKitsu, r.kitsu, r),
                Entered(b.byImdb, r.imdb, r), Entered(b.byTmdb, r.tmdb, r))
    else b
  }

  /** The index of the dataset's rows: rows without an anime id are dropped, a later row
      replaces an earlier one under the same id. */
  function Index(rows: seq<Ids>): Bridge {
    if rows == [] then Bridge(map[], map[], map[], map[], map[])
    else IndexOne(Index(rows[..|rows| - 1]), rows[|rows| - 1])
  }

  lemma IndexOneTable(b: Bridge, r: Ids, t: Tier)
    ensures TableOf(IndexOne(b, r), t) == if HasAnimeId(r) then Entered(TableOf(b, t), Get(r, t), r) else TableOf(b, t)
  {
  }

  /** What a table holds under an id is the last kept row with that id. */
  lemma {:induction false} IndexHoldsLast(rows: seq<Ids>, t: Tier, x: string)
    ensures x in TableOf(Index(rows), t) <==>
              exists k :: 0 <= k < |rows| && HasAnimeId(rows[k]) && Get(rows[k], t) == Some(x)
    ensures x in TableOf(Index(rows), t) ==>
              exists k :: 0 <= k < |rows| && HasAnimeId(rows[k]) && Get(rows[k], t) == Some(x)
                          && TableOf(Index(rows), t)[x] == rows[k]
                          && forall l :: k < l < |rows| ==> !(HasAnimeId(rows[l]) && Get(rows[l], t) == Some(x))
  {
    if rows == [] {
      assert TableOf(Index(rows), t) == map[] by { match t { case _ => } }
    } else {
      var init, last := rows[..|rows| - 1], rows[|rows| - 1];
      IndexHoldsLast(init, t, x);
      IndexOneTable(Index(init), last, t);
      if HasAnimeId(last) && Get(last, t) == Some(x) {
        assert rows[|rows| - 1] == last;
      } else if x in TableOf(Index(init), t) {
        var k :| 0 <= k < |init| && HasAnimeId(init[k]) && Get(init[k], t) == Some(x)
                 && TableOf(Index(init), t)[x] == init[k]
                 && forall l :: k < l < |init| ==> !(HasAnimeId(init[l]) && Get(init[l], t) == Some(x));
        assert rows[k] == init[k];
        forall l | k < l < |rows|
          ensures !(HasAnimeId(rows[l]) && Get(rows[l], t) == Some(x))
        {
          assert l < |init| ==> rows[l] == init[l];
        }
      } else {
        forall k | 0 <= k < |rows|
          ensures !(HasAnimeId(rows[k]) && Get(rows[k], t) == Some(x))
        {
          assert k < |init| ==> rows[k] == init[k];
        }
      }
    }
  }

  /** The index keeps exactly the rows with a mal, anilist or kitsu id: whatever a table holds is such
      a row, and such a row is held under each id that no other row has. */
  lemma RowsKeptExactlyWhen(rows: seq<Ids>, t: Tier, x: string, k: nat)
    requires k < |rows| && Get(rows[k], t) == Some(x)
    requires forall l :: 0 <= l < |rows| && l != k ==> Get(rows[l], t) != Some(x)
    ensures x in TableOf(Index(rows), t) <==> rows[k].mal.Some? || rows[k].anilist.Some? || rows[k].kitsu.Some?
    ensures x in TableOf(Index(rows), t) ==> TableOf(Index(rows), t)[x] == rows[k]
  {
    IndexHoldsLast(rows, t, x);
    assert HasAnimeId(rows[k]) && Get(rows[k], t) == Some(x) ==>
        exists l :: 0 <= l < |rows| && HasAnimeId(rows[l]) && Get(rows[l], t) == Some(x);
  }

  /** The order in which ids are looked up, with the table and the field of each. */
  lemma LookupOrder(b: Bridge, e: Ids)
    ensures Rank(Mal) < Rank(Anilist) < Rank(Kitsu) < Rank(Imdb) < Rank(Tmdb)
    ensures (TableOf(b, Mal), TableOf(b, Anilist), TableOf(b, Kitsu)) == (b.byMal, b.byAnilist, b.byKitsu)
    ensures (TableOf(b, Imdb), TableOf(b, Tmdb)) == (b.byImdb, b.byTmdb)
    ensures e == Ids(Get(e, Mal), Get(e, Anilist), Get(e, Kitsu), Get(e, Imdb), Get(e, Tmdb))
  {
  }

  /** The dataset gives no two kept rows the same mal, anilist, kitsu or imdb id, and no empty one. */
  ghost predicate UniqueRows(rows: seq<Ids>) {
    && (forall k, t {:trigger Get(rows[k], t)} :: 0 <= k < |rows| ==> Get(rows[k], t) != Some(""))
    && (forall k, l, t {:trigger Get(rows[k], t), Get(rows[l], t)} ::
          0 <= k < |rows| && 0 <= l < |rows| && k != l && t != Tmdb && Get(rows[k], t).Some? ==>
            !HasAnimeId(rows[k]) || !HasAnimeId(rows[l]) || Get(rows[k], t) != Get(rows[l], t))
  }

  /** The index of such a dataset is coherent, hence enrichment with it is idempotent. */
  lemma UniqueRowsAreCoherent(rows: seq<Ids>)
    requires UniqueRows(rows)
    ensures Coherent(Index(rows)) && Idempotent(Index(rows))
  {
    var b := Index(rows);
    forall j, x, i | Lookup(b, j, Some(x)).Some? && i != Tmdb && Get(Lookup(b, j, Some(x)).value, i).Some?
      ensures Lookup(b, i, Get(Lookup(b, j, Some(x)).value, i)) == Lookup(b, j, Some(x))
    {
      IndexHoldsLast(rows, j, x);
      var k :| 0 <= k < |rows| && HasAnimeId(rows[k]) && Get(rows[k], j) == Some(x) && TableOf(b, j)[x] == rows[k];
      var y := Get(rows[k], i).value;
      IndexHoldsLast(rows, i, y);
      var l :| 0 <= l < |rows| && HasAnimeId(rows[l]) && Get(rows[l], i) == Some(y) && TableOf(b, i)[y] == rows[l];
      assert k == l;
    }
    CoherentIsIdempotent(b);
  }

  /** Sharing an imdb id can break idempotence: an entry whose anilist id is unknown first gets the
      imdb id of its tmdb row, and that leads a second pass to the other row's mal id. */
  lemma SharedImdbIdIsNotIdempotent()
    ensures var first := Ids(None, Some("a1"), None, Some("tt1"), Some("t1"));
            var second := Ids(Some("m2"), None, None, Some("tt1"), None);
            var e := Ids(None, Some("unknown"), None, None, Some("t1"));
            var b := Index([first, second]);
            && Enriched(b, e) == Ids(None, Some("unknown"), None, Some("tt1"), Some("t1"))
            && Enriched(b, Enriched(b, e)) == Ids(Some("m2"), Some("unknown"), None, Some("tt1"), Some("t1"))
  {
    var first := Ids(None, Some("a1"), None, Some("tt1"), Some("t1"));
    var second := Ids(Some("m2"), None, None, Some("tt1"), None);
    assert [first, second][..1] == [first] && [first][..0] == [];
    assert Index([first]) == Bridge(map[], map["a1" := first], map[], map["tt1" := first], map["t1" := first]);
    assert Index([first, second])
        == Bridge(map["m2" := second], map["a1" := first], map[], map["tt1" := second], map["t1" := first]);
    assert "unknown"[0] != "a1"[0];
  }
}
