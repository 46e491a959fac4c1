/** Collecting a paginated list: the episode pages of one anime. */
module Paging {
  import opened Prelude

  const EPISODES_PER_PAGE := 20
  const MAX_EPISODE_PAGES := 25

  /** A page request by offset; fetching or decoding may fail. */
  type Pages<T, E> = nat -> Result<seq<T>, E>

  /** The pages from `page` on, appended to `all`; with the number of requests made. */
  function CollectFrom<T, E>(pages: Pages<T, E>, page: nat, all: seq<T>): (Result<seq<T>, E>, nat)
    decreases MAX_EPISODE_PAGES - page
  {
    if MAX_EPISODE_PAGES <= page then (Ok(all), 0)
    else match pages(page * EPISODES_PER_PAGE)
      case Err(e) => (Err(e), 1)
      case Ok(rows) =>
        if |rows| < EPISODES_PER_PAGE then (Ok(all + rows), 1)
        else var (r, n) := CollectFrom(pages, page + 1, all + rows); (r, n + 1)
  }

  /** The page loop of `episodes`. */
  method CollectPages<T, E>(pages: Pages<T, E>) returns (r: Result<seq<T>, E>, requests: nat)
    ensures (r, requests) == CollectFrom(pages, 0, [])
    ensures requests <= 25
  {
    var all: seq<T> := [];
    requests := 0;
    for page := 0 to MAX_EPISODE_PAGES
      invariant requests == page
      invariant CollectFrom(pages, 0, []).0 == CollectFrom(pages, page, all).0
      invariant CollectFrom(pages, 0, []).1 == page + CollectFrom(pages, page, all).1
    {
      requests := requests + 1;
      match pages(page * EPISODES_PER_PAGE) {
        case Err(e) => return Err(e), requests;
        case Ok(rows) =>
          all := all + rows;
          if |rows| < EPISODES_PER_PAGE {
            return Ok(all), requests;
          }
      }
    }
    r := Ok(all);
  }

  /** Rows `offset .. offset + 20` of a fixed list. */
  function PageOf<T>(rows: seq<T>, offset: nat): seq<T> {
    rows[Min(offset, |rows|)..Min(offset + 20, |rows|)]
  }

  ghost predicate Serves<T, E>(pages: Pages<T, E>, rows: seq<T>) {
    forall offset :: pages(offset) == Ok(PageOf(rows, offset))
  }

  lemma {:induction false} CollectsTheRest<T, E>(pages: Pages<T, E>, rows: seq<T>, page: nat)
    requires Serves(pages, rows) && page <= MAX_EPISODE_PAGES && page * EPISODES_PER_PAGE <= |rows|
    ensures CollectFrom(pages, page, rows[..page * EPISODES_PER_PAGE]) ==
              (Ok(rows[..Min(|rows|, MAX_EPISODE_PAGES * EPISODES_PER_PAGE)]),
               Min(MAX_EPISODE_PAGES, |rows| / EPISODES_PER_PAGE + 1) - page)
    decreases MAX_EPISODE_PAGES - page
  {
    if page < MAX_EPISODE_PAGES {
      var offset := page * EPISODES_PER_PAGE;
      assert pages(offset) == Ok(PageOf(rows, offset));
      if offset + EPISODES_PER_PAGE <= |rows| {
        assert rows[..offset] + PageOf(rows, offset) == rows[..(page + 1) * EPISODES_PER_PAGE];
        CollectsTheRest(pages, rows, page + 1);
      } else {
        assert rows[..offset] + PageOf(rows, offset) == rows;
        assert |rows| / EPISODES_PER_PAGE == page;
        assert rows[..|rows|] == rows;
      }
    }
  }

  /** Paging is lossless: against a server of a fixed list the loop returns exactly its first
      min(length, 500) rows, no gap and no repeat, in min(25, length / 20 + 1) requests; a length
      that is a multiple of 20 costs one more request for an empty page. */
  lemma PagingIsLossless<T, E>(pages: Pages<T, E>, rows: seq<T>)
    requires Serves(pages, rows)
    ensures CollectFrom(pages, 0, []) ==
              (Ok(rows[..Min(|rows|, 500)]), Min(25, |rows| / 20 + 1))
  {
    assert rows[..0] == [];
    CollectsTheRest(pages, rows, 0);
  }

  predicate Full<T, E>(page: Result<seq<T>, E>) {
    page.Ok? && EPISODES_PER_PAGE <= |page.ok|
  }

  /** Whatever the server: the loop fails exactly when some page fails before a short one ends it,
      and then with the error of the first such page and no rows at all. */
  lemma {:induction false} FailsExactlyWhen<T, E>(pages: Pages<T, E>, page: nat, all: seq<T>)
    requires page <= MAX_EPISODE_PAGES
    ensures CollectFrom(pages, page, all).0.Err? <==>
              exists k :: page <= k < MAX_EPISODE_PAGES && FirstFailure(pages, page, k)
    ensures forall k :: page <= k < MAX_EPISODE_PAGES && FirstFailure(pages, page, k) ==>
              CollectFrom(pages, page, all).0 == pages(k * EPISODES_PER_PAGE)
    decreases MAX_EPISODE_PAGES - page
  {
    if page < MAX_EPISODE_PAGES {
      var here := pages(page * EPISODES_PER_PAGE);
      if Full(here) {
        FailsExactlyWhen(pages, page + 1, all + here.ok);
        forall k | page <= k < MAX_EPISODE_PAGES
          ensures FirstFailure(pages, page, k) <==> page < k && FirstFailure(pages, page + 1, k)
        {
        }
        if CollectFrom(pages, page, all).0.Err? {
          var k :| page + 1 <= k < MAX_EPISODE_PAGES && FirstFailure(pages, page + 1, k);
          assert FirstFailure(pages, page, k);
        } else {
          forall k | page <= k < MAX_EPISODE_PAGES
            ensures !FirstFailure(pages, page, k)
          {
            assert page < k ==> !FirstFailure(pages, page + 1, k);
          }
        }
      } else if here.Err? {
        assert FirstFailure(pages, page, page);
      }
    }
  }

  /** Page `k` fails and every page from `first` up to it is full. */
  ghost predicate FirstFailure<T, E>(pages: Pages<T, E>, first: nat, k: nat) {
    pages(k * EPISODES_PER_PAGE).Err? && forall j :: first <= j < k ==> Full(pages(j * EPISODES_PER_PAGE))
  }
}
