/** Merging the top albums of several tags: ordered, first occurrence of each key wins. */
module TagAggregate {
  import opened Prelude

  datatype Album = Album(artistName: Option<string>, albumName: Option<string>, title: string)

  /** Fetching and decoding one tag; a failed tag is skipped. */
  type TagServer = string -> Result<seq<Album>, string>

  type Lowercase = string -> string

  function KeyOf(lower: Lowercase, a: Album): string {
    if a.artistName.Some? && a.albumName.Some?
    then lower(a.artistName.value) + "|" + lower(a.albumName.value)
    else lower(a.title)
  }

  /** The lists of the tags that succeed, one after the other. */
  function AllAlbums(server: TagServer, tags: seq<string>): seq<Album> {
    if tags == [] then []
    else AllAlbums(server, tags[..|tags| - 1])
         + (match server(tags[|tags| - 1]) case Ok(albums) => albums case Err(_) => [])
  }

  function Keys(lower: Lowercase, albums: seq<Album>): set<string> {
    set i | 0 <= i < |albums| :: KeyOf(lower, albums[i])
  }

  /** First occurrences by key, in order. */
  function Firsts(lower: Lowercase, albums: seq<Album>): seq<Album> {
    if albums == [] then []
    else
      var init, last := albums[..|albums| - 1], albums[|albums| - 1];
      Firsts(lower, init) + (if KeyOf(lower, last) in Keys(lower, init) then [] else [last])
  }

  /** The list of one tag. */
  lemma ListOfOneTag(server: TagServer, t: string)
    ensures AllAlbums(server, [t]) == match server(t) case Ok(albums) => albums case Err(_) => []
  {
    assert [t][..|[t]| - 1] == [] && AllAlbums(server, []) == [];
  }

  lemma OneMoreTag(server: TagServer, tags: seq<string>, t: string)
    ensures AllAlbums(server, tags + [t]) == AllAlbums(server, tags) + AllAlbums(server, [t])
  {
    ListOfOneTag(server, t);
    assert (tags + [t])[..|tags + [t]| - 1] == tags;
  }

  /** The lists aggregated: the tags' own lists in the order of the tags, nothing for a failed tag. */
  lemma {:induction false} ListsFollowTags(server: TagServer, tags: seq<string>, more: seq<string>)
    ensures AllAlbums(server, tags + more) == AllAlbums(server, tags) + AllAlbums(server, more)
  {
    if more == [] {
      assert tags + more == tags;
    } else {
      var init, t := more[..|more| - 1], more[|more| - 1];
      ListsFollowTags(server, tags, init);
      OneMoreTag(server, tags + init, t);
      OneMoreTag(server, init, t);
      assert more == init + [t] && tags + more == tags + init + [t];
    }
  }

  lemma KeysOfSnoc(lower: Lowercase, albums: seq<Album>, a: Album)
    ensures Keys(lower, albums + [a]) == Keys(lower, albums) + {KeyOf(lower, a)}
  {
    var all := albums + [a];
    assert all[|albums|] == a;
    forall k | k in Keys(lower, albums)
      ensures k in Keys(lower, all)
    {
      var i :| 0 <= i < |albums| && k == KeyOf(lower, albums[i]);
      assert all[i] == albums[i];
    }
  }

  lemma FirstsOfSnoc(lower: Lowercase, albums: seq<Album>, a: Album)
    ensures Firsts(lower, albums + [a])
         == Firsts(lower, albums) + (if KeyOf(lower, a) in Keys(lower, albums) then [] else [a])
  {
  }

  lemma OneMoreAlbum(lower: Lowercase, before: seq<Album>, albums: seq<Album>, i: nat)
    requires i < |albums|
    ensures var read, key := before + albums[..i], KeyOf(lower, albums[i]);
            && Keys(lower, before + albums[..i + 1]) == Keys(lower, read) + {key}
            && Firsts(lower, before + albums[..i + 1])
               == Firsts(lower, read) + (if key in Keys(lower, read) then [] else [albums[i]])
  {
    assert before + albums[..i + 1] == (before + albums[..i]) + [albums[i]];
    KeysOfSnoc(lower, before + albums[..i], albums[i]);
    FirstsOfSnoc(lower, before + albums[..i], albums[i]);
  }

  /** One tag's albums, pushed unless their key was seen. */
  method PushUnseen(lower: Lowercase, albums: seq<Album>, ghost before: seq<Album>, out: seq<Album>, seen: set<string>)
    returns (out': seq<Album>, seen': set<string>)
    requires out == Firsts(lower, before) && seen == Keys(lower, before)
    ensures out' == Firsts(lower, before + albums) && seen' == Keys(lower, before + albums)
  {
    out', seen' := out, seen;
    assert before + albums[..0] == before;
    for i := 0 to |albums|
      invariant out' == Firsts(lower, before + albums[..i]) && seen' == Keys(lower, before + albums[..i])
    {
      var a := albums[i];
      var key := KeyOf(lower, a);
      OneMoreAlbum(lower, before, albums, i);
      if key !in seen' {
        seen' := seen' + {key};
        out' := out' + [a];
      }
    }
    assert albums[..|albums|] == albums;
  }

  /** `aggregate_top_albums_by_tags` */
  method AggregateTopAlbums(lower: Lowercase, server: TagServer, tags: seq<string>) returns (out: seq<Album>)
    ensures out == Firsts(lower, AllAlbums(server, tags))
  {
    out := [];
    var seen: set<string> := {};
    for t := 0 to |tags|
      invariant out == Firsts(lower, AllAlbums(server, tags[..t]))
      invariant seen == Keys(lower, AllAlbums(server, tags[..t]))
    {
      assert tags[..t + 1][..t] == tags[..t];
      match server(tags[t]) {
        case Ok(albums) =>
          out, seen := PushUnseen(lower, albums, AllAlbums(server, tags[..t]), out, seen);
        case Err(_) =>
          assert AllAlbums(server, tags[..t + 1]) == AllAlbums(server, tags[..t]);
      }
    }
    assert tags[..|tags|] == tags;
  }

  // ── What first occurrences are ──────────────────────────────────────────

  predicate IsFirst(lower: Lowercase, albums: seq<Album>, i: nat)
    requires i < |albums|
  {
    forall j :: 0 <= j < i ==> KeyOf(lower, albums[j]) != KeyOf(lower, albums[i])
  }

  /** `positions` are, in order, exactly the positions of the albums whose key no earlier album
      has, and `out` lists the albums there. */
  ghost predicate Selects(lower: Lowercase, albums: seq<Album>, positions: seq<nat>, out: seq<Album>) {
    && |positions| == |out|
    && (forall k, l :: 0 <= k < l < |positions| ==> positions[k] < positions[l])
    && (forall k :: 0 <= k < |positions| ==> positions[k] < |albums| && out[k] == albums[positions[k]])
    && (forall i :: 0 <= i < |albums| ==> (i in positions <==> IsFirst(lower, albums, i)))
  }

  /** The output lists, in input order, exactly the albums whose key no earlier album has. */
  lemma {:induction false} FirstsAreTheFirsts(lower: Lowercase, albums: seq<Album>) returns (positions: seq<nat>)
    ensures Selects(lower, albums, positions, Firsts(lower, albums))
  {
    if albums == [] {
      positions := [];
    } else {
      var init, last := albums[..|albums| - 1], albums[|albums| - 1];
      positions := FirstsAreTheFirsts(lower, init);
      LastIsFirst(lower, albums);
      SelectsSnoc(lower, init, last, positions, Firsts(lower, init));
      assert init + [last] == albums;
      if IsFirst(lower, albums, |init|) {
        positions := positions + [|init|];
      }
    }
  }

  lemma SelectsSnoc(lower: Lowercase, init: seq<Album>, last: Album, positions: seq<nat>, out: seq<Album>)
    requires Selects(lower, init, positions, out)
    ensures IsFirst(lower, init + [last], |init|) ==>
              Selects(lower, init + [last], positions + [|init|], out + [last])
    ensures !IsFirst(lower, init + [last], |init|) ==> Selects(lower, init + [last], positions, out)
  {
    var albums := init + [last];
    forall i | 0 <= i < |init|
      ensures IsFirst(lower, init, i) <==> IsFirst(lower, albums, i)
    {
      assert forall j :: 0 <= j <= i ==> albums[j] == init[j];
    }
    var longer := positions + [|init|];
    assert forall i :: i in longer <==> i in positions || i == |init|;
  }

  lemma LastIsFirst(lower: Lowercase, albums: seq<Album>)
    requires albums != []
    ensures KeyOf(lower, albums[|albums| - 1]) in Keys(lower, albums[..|albums| - 1])
            <==> !IsFirst(lower, albums, |albums| - 1)
  {
  }

  /** No two output albums share a key, and every input key is there. */
  lemma OutputKeysAreDistinct(lower: Lowercase, albums: seq<Album>)
    ensures var out := Firsts(lower, albums);
            && (forall k, l :: 0 <= k < l < |out| ==> KeyOf(lower, out[k]) != KeyOf(lower, out[l]))
            && Keys(lower, out) == Keys(lower, albums)
  {
    var out := Firsts(lower, albums);
    var positions := FirstsAreTheFirsts(lower, albums);
    forall k, l | 0 <= k < l < |out|
      ensures KeyOf(lower, out[k]) != KeyOf(lower, out[l])
    {
      assert positions[l] in positions;
      assert IsFirst(lower, albums, positions[l]);
    }
    forall i | 0 <= i < |albums|
      ensures KeyOf(lower, albums[i]) in Keys(lower, out)
    {
      var f := FirstWithKey(lower, albums, i);
      var k :| 0 <= k < |positions| && positions[k] == f;
      assert KeyOf(lower, out[k]) == KeyOf(lower, albums[i]);
    }
  }

  lemma {:induction false} FirstWithKey(lower: Lowercase, albums: seq<Album>, i: nat) returns (f: nat)
    requires i < |albums|
    ensures f <= i && IsFirst(lower, albums, f) && KeyOf(lower, albums[f]) == KeyOf(lower, albums[i])
  {
    if IsFirst(lower, albums, i) {
      f := i;
    } else {
      var j :| 0 <= j < i && KeyOf(lower, albums[j]) == KeyOf(lower, albums[i]);
      f := FirstWithKey(lower, albums, j);
    }
  }

  function Succeeding(server: TagServer, tags: seq<string>): seq<string> {
    if tags == [] then []
    else Succeeding(server, tags[..|tags| - 1]) + (if server(tags[|tags| - 1]).Ok? then [tags[|tags| - 1]] else [])
  }

  /** A failed tag contributes nothing: the result is that of the tags that succeed. */
  lemma {:induction false} FailedTagsContributeNothing(server: TagServer, tags: seq<string>)
    ensures AllAlbums(server, tags) == AllAlbums(server, Succeeding(server, tags))
  {
    if tags != [] {
      var init, last := tags[..|tags| - 1], tags[|tags| - 1];
      FailedTagsContributeNothing(server, init);
      if server(last).Ok? {
        var s := Succeeding(server, tags);
        assert s[..|s| - 1] == Succeeding(server, init) && s[|s| - 1] == last;
      } else {
        assert Succeeding(server, tags) == Succeeding(server, init);
      }
    }
  }

  // ── What a key tells apart ──────────────────────────────────────────────

  /** What an album is keyed by, lower-cased: artist and album name, or the title if one is missing. */
  datatype Naming = Pair(artist: string, album: string) | TitleOnly(title: string)

  function NamingOf(lower: Lowercase, a: Album): Naming {
    if a.artistName.Some? && a.albumName.Some?
    then Pair(lower(a.artistName.value), lower(a.albumName.value)) else TitleOnly(lower(a.title))
  }

  /** The second artist runs on, past a bar, into what is album name in the first pair. */
  predicate Shifted(artist1: string, album1: string, artist2: string, album2: string) {
    exists k :: 0 <= k <= |album1| && artist2 == artist1 + "|" + album1[..k] && album1[k..] == "|" + album2
  }

  /** A bar of `title` separates it into `artist` and `album`. */
  predicate SplitsInto(title: string, artist: string, album: string) {
    |artist| < |title| && title[|artist|] == '|' && title[..|artist|] == artist && title[|artist| + 1..] == album
  }

  predicate Conflated(m: Naming, n: Naming) {
    match (m, n)
    case (Pair(a, t), Pair(b, u)) => m == n || Shifted(a, t, b, u) || Shifted(b, u, a, t)
    case (Pair(a, t), TitleOnly(s)) => SplitsInto(s, a, t)
    case (TitleOnly(s), Pair(b, u)) => SplitsInto(s, b, u)
    case (TitleOnly(s), TitleOnly(r)) => s == r
  }

  lemma ShiftMakesEqual(a: string, t: string, b: string, u: string)
    requires Shifted(a, t, b, u)
    ensures a + "|" + t == b + "|" + u
  {
    var k :| 0 <= k <= |t| && b == a + "|" + t[..k] && t[k..] == "|" + u;
    assert t == t[..k] + t[k..];
    assert a + "|" + t == (a + "|" + t[..k]) + t[k..];
    assert b + "|" + u == b + ("|" + u);
  }

  /** Where two texts put different bars, the second starts with the first's artist and bar. */
  lemma EqualMakesShift(a: string, t: string, b: string, u: string)
    requires |a| < |b| && a + "|" + t == b + "|" + u
    ensures Shifted(a, t, b, u)
  {
    var x, k := a + "|" + t, |b| - |a| - 1;
    assert b == x[..|b|] && u == x[|b| + 1..] && x[|b|] == '|';
    assert x[..|b|] == a + "|" + t[..k];
    assert t[k..] == x[|b|..];
    assert x[|b|..] == "|" + u;
  }

  lemma SameLength(a: string, t: string, b: string, u: string)
    requires |a| == |b| && a + "|" + t == b + "|" + u
    ensures a == b && t == u
  {
    var x, y := a + "|" + t, b + "|" + u;
    assert a == x[..|a|] && b == y[..|b|];
    assert t == x[|a| + 1..] && u == y[|b| + 1..];
  }

  lemma ShorterArtist(a: string, t: string, b: string, u: string)
    requires |a| <= |b|
    ensures a + "|" + t == b + "|" + u <==> (a == b && t == u) || Shifted(a, t, b, u)
  {
    if Shifted(a, t, b, u) {
      ShiftMakesEqual(a, t, b, u);
    } else if a + "|" + t == b + "|" + u {
      if |a| == |b| {
        SameLength(a, t, b, u);
      } else {
        EqualMakesShift(a, t, b, u);
      }
    }
  }

  lemma NotShifted(a: string, t: string, b: string, u: string)
    requires |b| <= |a|
    ensures !Shifted(a, t, b, u)
  {
  }

  /** Two albums share a key exactly when they are named alike up to case, or a bar in a name makes
      one naming read as the other. */
  lemma KeysEqualExactlyWhen(lower: Lowercase, x: Album, y: Album)
    ensures KeyOf(lower, x) == KeyOf(lower, y) <==> Conflated(NamingOf(lower, x), NamingOf(lower, y))
  {
    match (NamingOf(lower, x), NamingOf(lower, y)) {
      case (Pair(a, t), Pair(b, u)) =>
        if |a| <= |b| {
          ShorterArtist(a, t, b, u);
          NotShifted(b, u, a, t);
        } else {
          ShorterArtist(b, u, a, t);
          NotShifted(a, t, b, u);
        }
      case (Pair(a, t), TitleOnly(s)) => BarSplits(s, a, t);
      case (TitleOnly(s), Pair(b, u)) => BarSplits(s, b, u);
      case (TitleOnly(_), TitleOnly(_)) =>
    }
  }

  lemma BarSplits(title: string, artist: string, album: string)
    ensures artist + "|" + album == title <==> SplitsInto(title, artist, album)
  {
    if artist + "|" + album == title {
      assert title[|artist| + 1..] == album;
    }
    if SplitsInto(title, artist, album) {
      assert title == title[..|artist|] + [title[|artist|]] + title[|artist| + 1..];
    }
  }

  /** Letter case never tells albums apart: only the lower-cased names count, and the title only where
      the artist or the album name is missing. */
  lemma CaseIsIgnored(lower: Lowercase, x: Album, y: Album)
    requires x.artistName.Some? <==> y.artistName.Some?
    requires x.albumName.Some? <==> y.albumName.Some?
    requires x.artistName.Some? ==> lower(x.artistName.value) == lower(y.artistName.value)
    requires x.albumName.Some? ==> lower(x.albumName.value) == lower(y.albumName.value)
    requires (x.artistName.Some? && x.albumName.Some?) || lower(x.title) == lower(y.title)
    ensures KeyOf(lower, x) == KeyOf(lower, y)
  {
  }

  /** An album is kept exactly when no earlier one is conflated with it. */
  lemma KeptExactlyWhen(lower: Lowercase, albums: seq<Album>, i: nat)
    requires i < |albums|
    ensures IsFirst(lower, albums, i) <==>
              forall j :: 0 <= j < i ==> !Conflated(NamingOf(lower, albums[j]), NamingOf(lower, albums[i]))
  {
    forall j | 0 <= j < i
      ensures KeyOf(lower, albums[j]) == KeyOf(lower, albums[i])
              <==> Conflated(NamingOf(lower, albums[j]), NamingOf(lower, albums[i]))
    {
      KeysEqualExactlyWhen(lower, albums[j], albums[i]);
    }
  }

  lemma SecondIsDropped(lower: Lowercase, x: Album, y: Album)
    requires KeyOf(lower, x) == KeyOf(lower, y)
    ensures Firsts(lower, [x, y]) == [x]
  {
    KeysOfSnoc(lower, [], x);
    FirstsOfSnoc(lower, [], x);
    FirstsOfSnoc(lower, [x], y);
    assert [] + [x] == [x] && [x] + [y] == [x, y];
  }

  /** With bars, different albums can share a key and the second is dropped. */
  lemma BarsConflateAlbums(lower: Lowercase)
    requires lower("a|b") == "a|b" && lower("c") == "c" && lower("a") == "a" && lower("b|c") == "b|c"
    ensures var x := Album(Some("a|b"), Some("c"), "");
            var y := Album(Some("a"), Some("b|c"), "");
            x != y && Firsts(lower, [x, y]) == [x]
  {
    var x := Album(Some("a|b"), Some("c"), "");
    var y := Album(Some("a"), Some("b|c"), "");
    assert "a|b" + "|" + "c" == "a" + "|" + "b|c";
    SecondIsDropped(lower, x, y);
  }
}
