/**
 Dedup keys: the title normaliser, the tiered key that decides which entries become one
 card, and what bridge enrichment does to that decision.
 */
module DedupKeys {
  import opened Prelude
  import opened AnimeBridge

  /** The Unicode tables the normaliser consults: lower-casing of a whole string (it may depend on
      context and change the length) and the alphanumeric class. */
  datatype Text = Text(lower: string -> string, alnum: char -> bool)

  /** Neither `-`, `:` nor any white space counts as alphanumeric. */
  ghost predicate Standard(t: Text) {
    !t.alnum('-') && !t.alnum(':') && forall c :: IsWhitespace(c) ==> !t.alnum(c)
  }

  datatype MediaType = Movie | Series | Episode | Music | Album | Track | Unknown

  datatype Entry = Entry(ids: Ids, title: string, year: Option<string>, mediaType: MediaType)

  // ── Titles ──────────────────────────────────────────────────────────────

  function Straighten(c: char): char {
    if c == '\U{2019}' || c == '\U{2018}' || c == '\U{2BC}' then '\''
    else if c == '\U{201C}' || c == '\U{201D}' then '"'
    else c
  }

  function StraightenAll(s: string): string {
    seq(|s|, i requires 0 <= i < |s| => Straighten(s[i]))
  }

  /** Keep letters, digits and white space. */
  function Retain(t: Text, s: string): string {
    if s == "" then ""
    else if t.alnum(s[0]) || IsWhitespace(s[0]) then [s[0]] + Retain(t, s[1..])
    else Retain(t, s[1..])
  }

  function Flush(word: string): seq<string> {
    if word == "" then [] else [word]
  }

  /** White-space separated words of `s`, the first of them continuing `word`. */
  function WordsFrom(word: string, s: string): seq<string>
    decreases |s|
  {
    if s == "" then Flush(word)
    else if IsWhitespace(s[0]) then Flush(word) + WordsFrom("", s[1..])
    else WordsFrom(word + [s[0]], s[1..])
  }

  function NormalizeTitle(t: Text, title: string): string {
    Join(WordsFrom("", Retain(t, t.lower(StraightenAll(title)))), "-")
  }

  lemma {:induction false} WordRuns(word: string, run: string, rest: string)
    requires forall i :: 0 <= i < |run| ==> !IsWhitespace(run[i])
    ensures WordsFrom(word, run + rest) == WordsFrom(word + run, rest)
    decreases |run|
  {
    if run == "" {
      assert run + rest == rest && word + run == word;
    } else {
      assert (run + rest)[0] == run[0] && (run + rest)[1..] == run[1..] + rest;
      WordRuns(word + [run[0]], run[1..], rest);
      assert word + [run[0]] + run[1..] == word + run;
    }
  }

  lemma {:induction false} GapRuns(word: string, gap: string, rest: string)
    requires gap != "" && AllWhite(gap)
    ensures WordsFrom(word, gap + rest) == Flush(word) + WordsFrom("", rest)
    decreases |gap|
  {
    assert (gap + rest)[0] == gap[0] && (gap + rest)[1..] == gap[1..] + rest;
    if gap[1..] != "" {
      GapRuns("", gap[1..], rest);
    } else {
      assert gap[1..] + rest == rest;
    }
  }

  /** Words are the longest runs without white space: a word and the gap after it are split off, a
      gap in front is dropped, and a last word needs no gap. */
  lemma SplitIntoWords(word: string, gap: string, rest: string)
    requires word != "" && forall i :: 0 <= i < |word| ==> !IsWhitespace(word[i])
    requires gap != "" && AllWhite(gap)
    ensures WordsFrom("", word + (gap + rest)) == [word] + WordsFrom("", rest)
    ensures WordsFrom("", gap + rest) == WordsFrom("", rest)
    ensures WordsFrom("", word) == [word] && WordsFrom("", "") == []
  {
    WordRuns("", word, gap + rest);
    GapRuns("" + word, gap, rest);
    GapRuns("", gap, rest);
    WordRuns("", word, "");
    assert word + "" == word && "" + word == word;
  }

  /** A title without typographic quotes is only lower-cased before its letters, digits and white
      space are kept; so titles with one lower case normalise alike. */
  lemma PlainTitleIsLowered(t: Text, title: string)
    requires forall i :: 0 <= i < |title| ==>
               title[i] !in {'\U{2018}', '\U{2019}', '\U{2BC}', '\U{201C}', '\U{201D}'}
    ensures NormalizeTitle(t, title) == Join(WordsFrom("", Retain(t, t.lower(title))), "-")
  {
    assert StraightenAll(title) == title;
  }

  /** Titles that differ only in the style of their quotes normalise alike, whatever the tables say. */
  lemma QuoteStyleIsIgnored(t: Text, a: string, b: string)
    requires |a| == |b|
    requires forall i :: 0 <= i < |a| ==>
               || a[i] == b[i]
               || (a[i] in {'\'', '\U{2018}', '\U{2019}', '\U{2BC}'} && b[i] in {'\'', '\U{2018}', '\U{2019}', '\U{2BC}'})
               || (a[i] in {'"', '\U{201C}', '\U{201D}'} && b[i] in {'"', '\U{201C}', '\U{201D}'})
    ensures NormalizeTitle(t, a) == NormalizeTitle(t, b)
  {
    assert StraightenAll(a) == StraightenAll(b);
  }

  // The reference: split the lower-cased title into words first, clean each word afterwards.

  function Strip(t: Text, word: string): string {
    if word == "" then ""
    else if t.alnum(word[|word| - 1]) then Strip(t, word[..|word| - 1]) + [word[|word| - 1]]
    else Strip(t, word[..|word| - 1])
  }

  /** Each word with its non-alphanumerics dropped; words left empty vanish. */
  function CleanEach(t: Text, words: seq<string>): seq<string> {
    if words == [] then [] else Flush(Strip(t, words[0])) + CleanEach(t, words[1..])
  }

  function TitleWords(t: Text, title: string): seq<string> {
    CleanEach(t, WordsFrom("", t.lower(StraightenAll(title))))
  }

  lemma {:induction false} CleanEachConcat(t: Text, a: seq<string>, b: seq<string>)
    ensures CleanEach(t, a + b) == CleanEach(t, a) + CleanEach(t, b)
  {
    if a == [] {
      assert a + b == b;
    } else {
      assert (a + b)[1..] == a[1..] + b;
      CleanEachConcat(t, a[1..], b);
    }
  }

  lemma {:induction false} RetainThenSplit(t: Text, word: string, s: string)
    requires Standard(t)
    ensures WordsFrom(Strip(t, word), Retain(t, s)) == CleanEach(t, WordsFrom(word, s))
    decreases |s|
  {
    if s == "" {
    } else if IsWhitespace(s[0]) {
      var rest := Retain(t, s[1..]);
      assert Retain(t, s)[0] == s[0] && Retain(t, s)[1..] == rest;
      RetainThenSplit(t, "", s[1..]);
      CleanEachConcat(t, Flush(word), WordsFrom("", s[1..]));
    } else {
      var longer := word + [s[0]];
      assert longer[|longer| - 1] == s[0] && longer[..|longer| - 1] == word;
      RetainThenSplit(t, longer, s[1..]);
      if t.alnum(s[0]) {
        assert Retain(t, s)[0] == s[0] && Retain(t, s)[1..] == Retain(t, s[1..]);
      }
    }
  }

  predicate CleanWords(t: Text, words: seq<string>) {
    forall i :: 0 <= i < |words| ==> words[i] != "" && forall k :: 0 <= k < |words[i]| ==> t.alnum(words[i][k])
  }

  lemma {:induction false} StripIsAlnum(t: Text, word: string)
    ensures forall k :: 0 <= k < |Strip(t, word)| ==> t.alnum(Strip(t, word)[k])
  {
    if word != "" {
      StripIsAlnum(t, word[..|word| - 1]);
    }
  }

  lemma {:induction false} CleanEachIsClean(t: Text, words: seq<string>)
    ensures CleanWords(t, CleanEach(t, words))
  {
    if words != [] {
      StripIsAlnum(t, words[0]);
      CleanEachIsClean(t, words[1..]);
    }
  }

  /** The normaliser joins exactly the cleaned words of the lower-cased title. */
  lemma NormalizeJoinsWords(t: Text, title: string)
    requires Standard(t)
    ensures NormalizeTitle(t, title) == Join(TitleWords(t, title), "-")
    ensures CleanWords(t, TitleWords(t, title))
  {
    RetainThenSplit(t, "", t.lower(StraightenAll(title)));
    CleanEachIsClean(t, WordsFrom("", t.lower(StraightenAll(title))));
  }

  function IndexOf(s: string, c: char): nat {
    if s == "" || s[0] == c then 0 else 1 + IndexOf(s[1..], c)
  }

  lemma {:induction false} IndexOfSeparator(a: string, x: string, c: char)
    requires c !in a
    ensures IndexOf(a + [c] + x, c) == |a|
  {
    if a == "" {
      assert (a + [c] + x)[0] == c;
    } else {
      assert (a + [c] + x)[0] == a[0] && (a + [c] + x)[1..] == a[1..] + [c] + x;
      IndexOfSeparator(a[1..], x, c);
    }
  }

  /** Splitting at the first separator is unambiguous. */
  lemma SplitAtFirst(a: string, x: string, b: string, y: string, c: char)
    requires c !in a && c !in b
    requires a + [c] + x == b + [c] + y
    ensures a == b && x == y
  {
    IndexOfSeparator(a, x, c);
    IndexOfSeparator(b, y, c);
    var s := a + [c] + x;
    assert a == s[..|a|] && b == s[..|a|];
    assert x == s[|a| + 1..] && y == s[|a| + 1..];
  }

  /** The joined text tells no words, one word and several words apart. */
  lemma JoinShape(t: Text, words: seq<string>)
    requires Standard(t) && CleanWords(t, words)
    ensures Join(words, "-") == "" <==> words == []
    ensures '-' in Join(words, "-") <==> |words| > 1
  {
  }

  lemma {:induction false} JoinIsInjective(t: Text, a: seq<string>, b: seq<string>)
    requires Standard(t) && CleanWords(t, a) && CleanWords(t, b)
    requires Join(a, "-") == Join(b, "-")
    ensures a == b
  {
    JoinShape(t, a);
    JoinShape(t, b);
    if |a| > 1 {
      assert '-' !in a[0] && '-' !in b[0];
      SplitAtFirst(a[0], Join(a[1..], "-"), b[0], Join(b[1..], "-"), '-');
      JoinIsInjective(t, a[1..], b[1..]);
      assert a == [a[0]] + a[1..] && b == [b[0]] + b[1..];
    }
  }

  /** Two titles normalise alike exactly when their cleaned lower-case word lists are equal. */
  lemma NormalizeAgreesExactlyWhen(t: Text, title1: string, title2: string)
    requires Standard(t)
    ensures NormalizeTitle(t, title1) == NormalizeTitle(t, title2) <==> TitleWords(t, title1) == TitleWords(t, title2)
  {
    NormalizeJoinsWords(t, title1);
    NormalizeJoinsWords(t, title2);
    if NormalizeTitle(t, title1) == NormalizeTitle(t, title2) {
      JoinIsInjective(t, TitleWords(t, title1), TitleWords(t, title2));
    }
  }

  lemma {:induction false} JoinHasNoColon(t: Text, words: seq<string>)
    requires Standard(t) && CleanWords(t, words)
    ensures ':' !in Join(words, "-")
  {
    if |words| > 1 {
      JoinHasNoColon(t, words[1..]);
      assert Join(words, "-") == words[0] + "-" + Join(words[1..], "-");
    }
  }

  // ── Keys ────────────────────────────────────────────────────────────────

  /** A foreign id counts as missing when it is absent or empty. */
  function Usable(id: Option<string>): Option<string> {
    if id.Some? && id.value != "" then id else None
  }

  predicate SeriesSpine(m: MediaType) { m == Series || m == Episode }

  function YearText(year: Option<string>): string {
    match year case Some(y) => y case None => "?"
  }

  function DedupKey(t: Text, e: Entry): string {
    var tmdb, imdb, mal := Usable(e.ids.tmdb), Usable(e.ids.imdb), Usable(e.ids.mal);
    if SeriesSpine(e.mediaType) then
      if tmdb.Some? then "tmdb:" + tmdb.value
      else if imdb.Some? then "imdb:" + imdb.value
      else if mal.Some? then "mal:" + mal.value
      else "title:" + NormalizeTitle(t, e.title) + ":" + YearText(e.year)
    else
      if mal.Some? then "mal:" + mal.value
      else if imdb.Some? then "imdb:" + imdb.value
      else "title:" + NormalizeTitle(t, e.title) + ":" + YearText(e.year)
  }

  /** What a key stands for: an id of one family, or the words of the title with the year. */
  datatype Identity = Foreign(tier: Tier, id: string) | Titled(words: seq<string>, year: string)

  /** The families a media type looks at, most significant first. */
  function Precedence(m: MediaType): seq<Tier> {
    if SeriesSpine(m) then [Tmdb, Imdb, Mal] else [Mal, Imdb]
  }

  function FirstUsable(ids: Ids, tiers: seq<Tier>): Option<Identity> {
    if tiers == [] then None
    else match Usable(Get(ids, tiers[0]))
      case Some(id) => Some(Foreign(tiers[0], id))
      case None => FirstUsable(ids, tiers[1..])
  }

  function IdentityOf(t: Text, e: Entry): Identity {
    match FirstUsable(e.ids, Precedence(e.mediaType))
    case Some(identity) => identity
    case None => Titled(TitleWords(t, e.title), YearText(e.year))
  }

  /** The key as a rendering of the identity. */
  function Rendered(t: Text, i: Identity): string {
    match i
    case Foreign(Tmdb, id) => "tmdb:" + id
    case Foreign(Imdb, id) => "imdb:" + id
    case Foreign(Mal, id) => "mal:" + id
    case Foreign(Anilist, id) => "anilist:" + id
    case Foreign(Kitsu, id) => "kitsu:" + id
    case Titled(words, year) => "title:" + Join(words, "-") + ":" + year
  }

  lemma FirstUsableUnfolds(ids: Ids, m: MediaType)
    ensures FirstUsable(ids, Precedence(m)) ==
      if SeriesSpine(m) then
        (if Usable(ids.tmdb).Some? then Some(Foreign(Tmdb, ids.tmdb.value))
         else if Usable(ids.imdb).Some? then Some(Foreign(Imdb, ids.imdb.value))
         else if Usable(ids.mal).Some? then Some(Foreign(Mal, ids.mal.value)) else None)
      else
        (if Usable(ids.mal).Some? then Some(Foreign(Mal, ids.mal.value))
         else if Usable(ids.imdb).Some? then Some(Foreign(Imdb, ids.imdb.value)) else None)
  {
    assert [Tmdb, Imdb, Mal][1..] == [Imdb, Mal];
    FirstUsableOfTwo(ids, Imdb, Mal);
    FirstUsableOfTwo(ids, Mal, Imdb);
  }

  lemma FirstUsableOfTwo(ids: Ids, a: Tier, b: Tier)
    ensures FirstUsable(ids, [a]) == (if Usable(Get(ids, a)).Some? then Some(Foreign(a, Get(ids, a).value)) else None)
    ensures FirstUsable(ids, [a, b]) ==
              if Usable(Get(ids, a)).Some? then Some(Foreign(a, Get(ids, a).value))
              else if Usable(Get(ids, b)).Some? then Some(Foreign(b, Get(ids, b).value)) else None
  {
    assert [a, b][1..] == [b] && [a][1..] == [] && [b][1..] == [];
    assert FirstUsable(ids, [b]) == (if Usable(Get(ids, b)).Some? then Some(Foreign(b, Get(ids, b).value)) else None);
  }

  lemma KeyRendersIdentity(t: Text, e: Entry)
    requires Standard(t)
    ensures DedupKey(t, e) == Rendered(t, IdentityOf(t, e))
    ensures IdentityOf(t, e).Titled? ==> CleanWords(t, IdentityOf(t, e).words)
  {
    FirstUsableUnfolds(e.ids, e.mediaType);
    NormalizeJoinsWords(t, e.title);
  }

  lemma PrefixCancels(p: string, a: string, b: string)
    requires p + a == p + b
    ensures a == b
  {
    assert a == (p + a)[|p|..] && b == (p + b)[|p|..];
  }

  /** Different families start differently, so a key determines what it stands for. */
  lemma RenderedIsInjective(t: Text, i: Identity, j: Identity)
    requires Standard(t)
    requires i.Titled? ==> CleanWords(t, i.words)
    requires j.Titled? ==> CleanWords(t, j.words)
    requires Rendered(t, i) == Rendered(t, j)
    ensures i == j
  {
    var r := Rendered(t, i);
    assert i.Titled? <==> r[0] == 't' && r[1] == 'i';
    assert j.Titled? <==> r[0] == 't' && r[1] == 'i';
    if i.Titled? {
      JoinHasNoColon(t, i.words);
      JoinHasNoColon(t, j.words);
      var a, b := Join(i.words, "-"), Join(j.words, "-");
      assert Rendered(t, i) == "title:" + (a + [':'] + i.year);
      assert Rendered(t, j) == "title:" + (b + [':'] + j.year);
      PrefixCancels("title:", a + [':'] + i.year, b + [':'] + j.year);
      SplitAtFirst(a, i.year, b, j.year, ':');
      JoinIsInjective(t, i.words, j.words);
    } else {
      ForeignIsInjective(t, i, j);
    }
  }

  lemma ForeignIsInjective(t: Text, i: Identity, j: Identity)
    requires i.Foreign? && j.Foreign? && Rendered(t, i) == Rendered(t, j)
    ensures i == j
  {
    var r, r' := Rendered(t, i), Rendered(t, j);
    assert r[0] == r'[0];
    assert i.tier == j.tier;
    var p := match i.tier case Tmdb => "tmdb:" case Imdb => "imdb:" case Mal => "mal:"
             case Anilist => "anilist:" case Kitsu => "kitsu:";
    PrefixCancels(p, i.id, j.id);
  }

  /** The tiers of the key: for series and episodes tmdb, then imdb, then mal; for everything else mal,
      then imdb; and the normalised title with the year, or `?` without one, when none is there. */
  lemma KeyTiers(t: Text, e: Entry, x: string)
    requires x != ""
    ensures var series := e.mediaType in {Series, Episode};
            var (mal, imdb, tmdb) := (e.ids.mal, e.ids.imdb, e.ids.tmdb);
            && (series && tmdb == Some(x) ==> DedupKey(t, e) == "tmdb:" + x)
            && (series && tmdb in {None, Some("")} && imdb == Some(x) ==> DedupKey(t, e) == "imdb:" + x)
            && (series && tmdb in {None, Some("")} && imdb in {None, Some("")} && mal == Some(x) ==> DedupKey(t, e) == "mal:" + x)
            && (!series && mal == Some(x) ==> DedupKey(t, e) == "mal:" + x)
            && (!series && mal in {None, Some("")} && imdb == Some(x) ==> DedupKey(t, e) == "imdb:" + x)
            && (mal in {None, Some("")} && imdb in {None, Some("")} && (series ==> tmdb in {None, Some("")}) ==>
                  DedupKey(t, e) == "title:" + NormalizeTitle(t, e.title) + ":" + (if e.year.Some? then e.year.value else "?"))
  {
  }

  /** Keys collide only as intended: exactly when the entries fall in the same tier with the same
      id, or both in the title tier with the same cleaned words and the same year-or-"?". */
  lemma KeysEqualExactlyWhen(t: Text, e1: Entry, e2: Entry)
    requires Standard(t)
    ensures DedupKey(t, e1) == DedupKey(t, e2) <==> IdentityOf(t, e1) == IdentityOf(t, e2)
  {
    KeyRendersIdentity(t, e1);
    KeyRendersIdentity(t, e2);
    if DedupKey(t, e1) == DedupKey(t, e2) {
      RenderedIsInjective(t, IdentityOf(t, e1), IdentityOf(t, e2));
    }
  }

  // ── Enrichment and merging ──────────────────────────────────────────────

  function EnrichedEntry(b: Bridge, e: Entry): Entry {
    e.(ids := Enriched(b, e.ids))
  }

  predicate NoEmptyIds(ids: Ids) {
    ids.mal != Some("") && ids.anilist != Some("") && ids.kitsu != Some("") && ids.imdb != Some("") && ids.tmdb != Some("")
  }

  /** The families that outrank `tier` for this media type. */
  function Above(m: MediaType, tier: Tier): seq<Tier> {
    if SeriesSpine(m) then (if tier == Mal then [Tmdb, Imdb] else if tier == Imdb then [Tmdb] else [])
    else (if tier == Imdb then [Mal] else [])
  }

  function Gap(present: Option<string>, offered: Option<string>): Option<string> {
    if present.None? then offered else None
  }

  /** The ids of `r` that fill a gap of `e`; an empty id is no gap. */
  function Offered(e: Ids, r: Ids): Ids {
    Ids(Gap(e.mal, r.mal), Gap(e.anilist, r.anilist), Gap(e.kitsu, r.kitsu), Gap(e.imdb, r.imdb), Gap(e.tmdb, r.tmdb))
  }

  /** The first usable id among `tiers` with which the record of `e` fills a gap. */
  function Supplied(b: Bridge, e: Entry, tiers: seq<Tier>): Option<Identity> {
    match Resolve(b, e.ids)
    case Some(r) => FirstUsable(Offered(e.ids, r), tiers)
    case None => None
  }

  /** The families whose ids would give an entry of this identity another key. */
  function Outranking(m: MediaType, i: Identity): seq<Tier> {
    match i
    case Foreign(tier, _) => Above(m, tier)
    case Titled(_, _) => Precedence(m)
  }

  /** Any entry keeps its key unless its record fills a gap with an id of a family that outranks it;
      for an entry keyed by its title that is every family its media type looks at. */
  lemma KeyAfterEnrichment(t: Text, b: Bridge, e: Entry)
    ensures IdentityOf(t, EnrichedEntry(b, e))
         == (match Supplied(b, e, Outranking(e.mediaType, IdentityOf(t, e)))
             case Some(raised) => raised
             case None => IdentityOf(t, e))
  {
    FirstUsableUnfolds(e.ids, e.mediaType);
    FirstUsableUnfolds(Enriched(b, e.ids), e.mediaType);
    if Resolve(b, e.ids).Some? {
      var offered := Offered(e.ids, Resolve(b, e.ids).value);
      FirstUsableUnfolds(offered, e.mediaType);
      FirstUsableOfTwo(offered, Tmdb, Imdb);
      FirstUsableOfTwo(offered, Mal, Imdb);
    }
  }

  /** When enrichment keeps two merged entries together, whatever merged them, whatever their ids and
      media types: two entries with one key still share a key exactly when their records fill their
      gaps with the same outranking id, or neither does. */
  lemma StayMergedExactlyWhen(t: Text, b: Bridge, e1: Entry, e2: Entry)
    requires Standard(t)
    requires DedupKey(t, e1) == DedupKey(t, e2)
    ensures IdentityOf(t, e1) == IdentityOf(t, e2)
    ensures DedupKey(t, EnrichedEntry(b, e1)) == DedupKey(t, EnrichedEntry(b, e2)) <==>
              Supplied(b, e1, Outranking(e1.mediaType, IdentityOf(t, e1)))
              == Supplied(b, e2, Outranking(e2.mediaType, IdentityOf(t, e2)))
  {
    KeysEqualExactlyWhen(t, e1, e2);
    KeyAfterEnrichment(t, b, e1);
    KeyAfterEnrichment(t, b, e2);
    KeysEqualExactlyWhen(t, EnrichedEntry(b, e1), EnrichedEntry(b, e2));
    RaisedIsAnother(t, b, e1);
    RaisedIsAnother(t, b, e2);
  }

  /** An id that raises a key makes a different key. */
  lemma RaisedIsAnother(t: Text, b: Bridge, e: Entry)
    ensures Supplied(b, e, Outranking(e.mediaType, IdentityOf(t, e))) != Some(IdentityOf(t, e))
  {
    FirstUsableUnfolds(e.ids, e.mediaType);
    SuppliedOutranks(b, e, Outranking(e.mediaType, IdentityOf(t, e)));
  }

  lemma SuppliedOutranks(b: Bridge, e: Entry, tiers: seq<Tier>)
    ensures Supplied(b, e, tiers).Some? ==> Supplied(b, e, tiers).value.Foreign? && Supplied(b, e, tiers).value.tier in tiers
  {
    if Resolve(b, e.ids).Some? {
      FirstUsableTier(Offered(e.ids, Resolve(b, e.ids).value), tiers);
    }
  }

  lemma {:induction false} FirstUsableTier(ids: Ids, tiers: seq<Tier>)
    ensures FirstUsable(ids, tiers).Some? ==>
              FirstUsable(ids, tiers).value.Foreign? && FirstUsable(ids, tiers).value.tier in tiers
  {
    if tiers != [] {
      FirstUsableTier(ids, tiers[1..]);
    }
  }

  /** All the entry's ids that hit the index hit the same record. */
  ghost predicate HitsOneRecord(b: Bridge, ids: Ids) {
    forall s, u {:trigger Lookup(b, s, Get(ids, s)), Lookup(b, u, Get(ids, u))} ::
      Lookup(b, s, Get(ids, s)).Some? && Lookup(b, u, Get(ids, u)).Some? ==>
        Lookup(b, s, Get(ids, s)) == Lookup(b, u, Get(ids, u))
  }

  /** Enrichment never splits what was merged: entries of one media type without empty ids, each
      hitting one record at most, that share a foreign key the index knows, still share a key. */
  lemma EnrichmentNeverSplits(t: Text, b: Bridge, e1: Entry, e2: Entry)
    requires Standard(t)
    requires NoEmptyIds(e1.ids) && NoEmptyIds(e2.ids) && e1.mediaType == e2.mediaType
    requires HitsOneRecord(b, e1.ids) && HitsOneRecord(b, e2.ids)
    requires DedupKey(t, e1) == DedupKey(t, e2) && IdentityOf(t, e1).Foreign?
    requires Lookup(b, IdentityOf(t, e1).tier, Some(IdentityOf(t, e1).id)).Some?
    ensures DedupKey(t, EnrichedEntry(b, e1)) == DedupKey(t, EnrichedEntry(b, e2))
  {
    StayMergedExactlyWhen(t, b, e1, e2);
    ResolvesThroughKey(t, b, e1);
    ResolvesThroughKey(t, b, e2);
    var above := Above(e1.mediaType, IdentityOf(t, e1).tier);
    var r := Resolve(b, e1.ids).value;
    assert Outranking(e1.mediaType, IdentityOf(t, e1)) == above == Outranking(e2.mediaType, IdentityOf(t, e2));
    OutrankingIdsAreGaps(t, e1, r);
    OutrankingIdsAreGaps(t, e2, r);
    assert Supplied(b, e1, above) == FirstUsable(r, above) == Supplied(b, e2, above);
  }

  /** Without empty ids, an entry keyed by a foreign id has a gap in every family that outranks it. */
  lemma OutrankingIdsAreGaps(t: Text, e: Entry, r: Ids)
    requires NoEmptyIds(e.ids) && IdentityOf(t, e).Foreign?
    ensures var above := Above(e.mediaType, IdentityOf(t, e).tier);
            FirstUsable(Offered(e.ids, r), above) == FirstUsable(r, above)
  {
    FirstUsableUnfolds(e.ids, e.mediaType);
    FirstUsableOfTwo(r, Tmdb, Imdb);
    FirstUsableOfTwo(r, Mal, Imdb);
    FirstUsableOfTwo(Offered(e.ids, r), Tmdb, Imdb);
    FirstUsableOfTwo(Offered(e.ids, r), Mal, Imdb);
  }

  lemma ResolvesThroughKey(t: Text, b: Bridge, e: Entry)
    requires IdentityOf(t, e).Foreign? && HitsOneRecord(b, e.ids)
    requires Lookup(b, IdentityOf(t, e).tier, Some(IdentityOf(t, e).id)).Some?
    ensures Resolve(b, e.ids) == Lookup(b, IdentityOf(t, e).tier, Some(IdentityOf(t, e).id))
  {
    FirstUsableUnfolds(e.ids, e.mediaType);
    var tier := IdentityOf(t, e).tier;
    assert Get(e.ids, tier) == Some(IdentityOf(t, e).id);
    ResolveIsFirstHit(b, e.ids);
    var j :| Lookup(b, j, Get(e.ids, j)) == Resolve(b, e.ids);
  }

  /** One card per show: series entries that bring no tmdb id and resolve to records with the same
      one all get the key made of it. */
  lemma CoursCollapseOnTmdb(t: Text, b: Bridge, e: Entry, tmdb: string)
    requires SeriesSpine(e.mediaType) && e.ids.tmdb.None? && tmdb != ""
    requires Resolve(b, e.ids).Some? && Resolve(b, e.ids).value.tmdb == Some(tmdb)
    ensures DedupKey(t, EnrichedEntry(b, e)) == "tmdb:" + tmdb
  {
  }

  /** Why empty ids must be kept out: an empty id blocks filling but does not count for the key, so
      two films merged on their imdb id come apart. */
  lemma EmptyIdSplitsMergedFilms(t: Text)
    ensures var r := Ids(Some("1"), None, None, Some("tt1"), None);
            var b := Bridge(map["1" := r], map[], map[], map["tt1" := r], map[]);
            var e1 := Entry(Ids(Some(""), None, None, Some("tt1"), None), "A", None, Movie);
            var e2 := Entry(Ids(None, None, None, Some("tt1"), None), "B", None, Movie);
            && DedupKey(t, e1) == DedupKey(t, e2) == "imdb:tt1"
            && DedupKey(t, EnrichedEntry(b, e1)) == "imdb:tt1"
            && DedupKey(t, EnrichedEntry(b, e2)) == "mal:1"
  {
  }

  /** Why the index must know the shared key: films merged on their title come apart when only one has
      an id the index knows, although no id is empty, none conflict and the index is coherent. */
  lemma KnownIdSplitsTitleMerge(t: Text)
    ensures var r := Ids(Some("1"), None, Some("k1"), None, None);
            var b := Bridge(map["1" := r], map[], map["k1" := r], map[], map[]);
            var e1 := Entry(Ids(None, None, Some("k1"), None, None), "A", None, Movie);
            var e2 := Entry(Ids(None, None, None, None, None), "A", None, Movie);
            && Coherent(b) && NoEmptyIds(e1.ids) && NoEmptyIds(e2.ids)
            && HitsOneRecord(b, e1.ids) && HitsOneRecord(b, e2.ids)
            && DedupKey(t, e1) == DedupKey(t, e2)
            && DedupKey(t, EnrichedEntry(b, e1)) == "mal:1"
            && DedupKey(t, EnrichedEntry(b, e2)) == DedupKey(t, e2) != "mal:1"
  {
    var r := Ids(Some("1"), None, Some("k1"), None, None);
    var b := Bridge(map["1" := r], map[], map["k1" := r], map[], map[]);
    var e2 := Entry(Ids(None, None, None, None, None), "A", None, Movie);
    forall j, x, i | Lookup(b, j, Some(x)).Some? && i != Tmdb && Get(Lookup(b, j, Some(x)).value, i).Some?
      ensures Lookup(b, i, Get(Lookup(b, j, Some(x)).value, i)) == Lookup(b, j, Some(x))
    {
      match j { case _ => match i { case _ => } }
    }
    assert DedupKey(t, e2)[0] == 't';
  }

  /** A series and a film that share an imdb id come apart when the record adds a tmdb id, because
      only the series is keyed by that. */
  lemma TmdbIdSplitsSeriesFromFilm(t: Text)
    ensures var r := Ids(None, Some("a1"), None, Some("tt1"), Some("5"));
            var b := Bridge(map[], map["a1" := r], map[], map["tt1" := r], map["5" := r]);
            var e1 := Entry(Ids(None, None, None, Some("tt1"), None), "A", None, Series);
            var e2 := Entry(Ids(None, None, None, Some("tt1"), None), "A", None, Movie);
            && DedupKey(t, e1) == DedupKey(t, e2) == "imdb:tt1"
            && DedupKey(t, EnrichedEntry(b, e1)) == "tmdb:5"
            && DedupKey(t, EnrichedEntry(b, e2)) == "imdb:tt1"
  {
  }

  /** Why an entry's ids must agree: an anilist id that leads elsewhere takes its film away from one
      it was merged with. */
  lemma ConflictingIdsSplitMergedFilms(t: Text)
    ensures var r1 := Ids(Some("1"), Some("a1"), None, None, None);
            var r2 := Ids(Some("2"), None, None, Some("tt1"), None);
            var b := Bridge(map["1" := r1, "2" := r2], map["a1" := r1], map[], map["tt1" := r2], map[]);
            var e1 := Entry(Ids(None, Some("a1"), None, Some("tt1"), None), "A", None, Movie);
            var e2 := Entry(Ids(None, None, None, Some("tt1"), None), "B", None, Movie);
            && Coherent(b)
            && DedupKey(t, e1) == DedupKey(t, e2) == "imdb:tt1"
            && DedupKey(t, EnrichedEntry(b, e1)) == "mal:1"
            && DedupKey(t, EnrichedEntry(b, e2)) == "mal:2"
  {
    assert "1"[0] != "2"[0];
    var r1 := Ids(Some("1"), Some("a1"), None, None, None);
    var r2 := Ids(Some("2"), None, None, Some("tt1"), None);
    var b := Bridge(map["1" := r1, "2" := r2], map["a1" := r1], map[], map["tt1" := r2], map[]);
    forall j, x, i | Lookup(b, j, Some(x)).Some? && i != Tmdb && Get(Lookup(b, j, Some(x)).value, i).Some?
      ensures Lookup(b, i, Get(Lookup(b, j, Some(x)).value, i)) == Lookup(b, j, Some(x))
    {
      match j { case _ => match i { case _ => } }
    }
  }
}
