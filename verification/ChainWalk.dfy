/**
 The prequel/sequel walk that turns one anime entry into the list of its seasons.  The
 relations graph is untrusted: it may hold cycles, self-edges and hops that fail.
 */
module ChainWalk {
  import opened Prelude

  const CHAIN_MAX_DEPTH := 20

  datatype Edge = Edge(kind: Option<string>, node: Option<nat>)

  type Relations = Option<seq<Edge>>

  /** What fetching one media gives: an error, no media, or its relations. */
  datatype Hop = Failed | Absent | Node(relations: Relations)

  type Graph = nat -> Hop

  predicate Leads(e: Edge, want: string) {
    e.kind.Some? && EqIgnoreCase(e.kind.value, want) && e.node.Some?
  }

  function FirstEdge(edges: seq<Edge>, want: string): Option<nat> {
    if edges == [] then None
    else if Leads(edges[0], want) then edges[0].node
    else FirstEdge(edges[1..], want)
  }

  function FirstRelation(rel: Relations, want: string): Option<nat> {
    if rel.Some? then FirstEdge(rel.value, want) else None
  }

  /** The relation followed is the first edge of that kind that names a media; there is none
      exactly when no edge does. */
  lemma {:induction false} FirstEdgeIsFirst(edges: seq<Edge>, want: string)
    ensures FirstEdge(edges, want).None? <==> forall i :: 0 <= i < |edges| ==> !Leads(edges[i], want)
    ensures FirstEdge(edges, want).Some? ==>
              exists k :: 0 <= k < |edges| && Leads(edges[k], want) && FirstEdge(edges, want) == edges[k].node
                          && forall i :: 0 <= i < k ==> !Leads(edges[i], want)
  {
    if edges != [] && !Leads(edges[0], want) {
      var rest := edges[1..];
      FirstEdgeIsFirst(rest, want);
      assert forall i :: 0 < i < |edges| ==> edges[i] == rest[i - 1];
      if FirstEdge(rest, want).Some? {
        var k :| 0 <= k < |rest| && Leads(rest[k], want) && FirstEdge(rest, want) == rest[k].node
                 && forall i :: 0 <= i < k ==> !Leads(rest[i], want);
        assert Leads(edges[k + 1], want);
      } else {
        forall i | 0 <= i < |edges|
          ensures !Leads(edges[i], want)
        {
          assert i > 0 ==> !Leads(rest[i - 1], want);
        }
      }
    }
  }

  /** What makes an edge the one to follow: it has a kind, which is the wanted one in any letter case,
      and it names a media. */
  lemma EdgeLeadsExactlyWhen(e: Edge, want: string)
    ensures FirstRelation(Some([e]), want) ==
              if e.kind.Some? && |e.kind.value| == |want|
                 && (forall i :: 0 <= i < |want| ==>
                       var (a, b) := (e.kind.value[i], want[i]);
                       || a == b
                       || ('A' <= a <= 'Z' && b as int == a as int + 32)
                       || ('A' <= b <= 'Z' && a as int == b as int + 32))
              then e.node else None
    ensures FirstRelation(None, want) == None && FirstRelation(Some([]), want) == None
  {
    if e.kind.Some? {
      IgnoringCaseMeans(e.kind.value, want);
    }
    assert FirstEdge([e], want) == if Leads(e, want) then e.node else None by {
      assert [e][1..] == [];
    }
  }

  // ── The walk ────────────────────────────────────────────────────────────

  /** One direction: follow the first `want` edges, starting from `rel`, past `got`. */
  function Walk(graph: Graph, want: string, blocked: seq<nat>, rel: Relations, got: seq<nat>, hops: nat): seq<nat>
    decreases CHAIN_MAX_DEPTH - hops
  {
    match FirstRelation(rel, want)
    case None => got
    case Some(next) =>
      if CHAIN_MAX_DEPTH <= hops || next in got || next in blocked then got
      else match graph(next)
        case Node(r) => Walk(graph, want, blocked, r, got + [next], hops + 1)
        case _ => got + [next]
  }

  function Reverse(s: seq<nat>): (r: seq<nat>)
    ensures |r| == |s| && forall i :: 0 <= i < |s| ==> r[i] == s[|s| - 1 - i]
  {
    seq(|s|, i requires 0 <= i < |s| => s[|s| - 1 - i])
  }

  function Before(graph: Graph, anchor: nat, rel: Relations): seq<nat> {
    Reverse(Walk(graph, "PREQUEL", [anchor], rel, [], 0))
  }

  function After(graph: Graph, anchor: nat, rel: Relations): seq<nat> {
    Walk(graph, "SEQUEL", Before(graph, anchor, rel) + [anchor], rel, [], 0)
  }

  function Chain(graph: Graph, anchor: nat, rel: Relations): seq<nat> {
    Before(graph, anchor, rel) + [anchor] + After(graph, anchor, rel)
  }

  /** The first loop of `walk_chain`; `asked` lists the hops it fetches. */
  method WalkBack(graph: Graph, anchor: nat, anchorRelations: Relations)
    returns (prefix: seq<nat>, ghost asked: seq<nat>)
    ensures prefix == Walk(graph, "PREQUEL", [anchor], anchorRelations, [], 0)
    ensures asked == prefix && |prefix| <= 20
  {
    prefix, asked := [], [];
    var current := anchorRelations;
    var hops := 0;
    while FirstRelation(current, "PREQUEL").Some?
      invariant asked == prefix && hops == |prefix| <= CHAIN_MAX_DEPTH
      invariant Walk(graph, "PREQUEL", [anchor], anchorRelations, [], 0)
             == Walk(graph, "PREQUEL", [anchor], current, prefix, hops)
      decreases CHAIN_MAX_DEPTH - hops
    {
      var previous := FirstRelation(current, "PREQUEL").value;
      if CHAIN_MAX_DEPTH <= hops || previous in prefix || previous == anchor {
        return;
      }
      prefix, asked := prefix + [previous], asked + [previous];
      match graph(previous) {
        case Node(r) => current := r;
        case _ => return;
      }
      hops := hops + 1;
    }
  }

  /** The second loop; `prefix` is already in order, earliest first. */
  method WalkForward(graph: Graph, prefix: seq<nat>, anchor: nat, anchorRelations: Relations)
    returns (suffix: seq<nat>, ghost asked: seq<nat>)
    ensures suffix == Walk(graph, "SEQUEL", prefix + [anchor], anchorRelations, [], 0)
    ensures asked == suffix && |suffix| <= 20
  {
    suffix, asked := [], [];
    var current := anchorRelations;
    var hops := 0;
    while FirstRelation(current, "SEQUEL").Some?
      invariant asked == suffix && hops == |suffix| <= CHAIN_MAX_DEPTH
      invariant Walk(graph, "SEQUEL", prefix + [anchor], anchorRelations, [], 0)
             == Walk(graph, "SEQUEL", prefix + [anchor], current, suffix, hops)
      decreases CHAIN_MAX_DEPTH - hops
    {
      var next := FirstRelation(current, "SEQUEL").value;
      if CHAIN_MAX_DEPTH <= hops || next in suffix || next in prefix || next == anchor {
        return;
      }
      suffix, asked := suffix + [next], asked + [next];
      match graph(next) {
        case Node(r) => current := r;
        case _ => return;
      }
      hops := hops + 1;
    }
  }

  /** `walk_chain`: at most 40 hops are fetched, one per id beside the anchor. */
  method WalkChain(graph: Graph, anchor: nat, anchorRelations: Relations)
    returns (chain: seq<nat>, ghost asked: seq<nat>)
    ensures chain == Chain(graph, anchor, anchorRelations)
    ensures |asked| == |chain| - 1 && |asked| <= 40
  {
    var prefix, back := WalkBack(graph, anchor, anchorRelations);
    prefix := Reverse(prefix);
    var suffix, forth := WalkForward(graph, prefix, anchor, anchorRelations);
    chain, asked := prefix + [anchor] + suffix, back + forth;
  }

  // ── Any graph ───────────────────────────────────────────────────────────

  function RelationsOf(graph: Graph, id: nat): Relations {
    match graph(id)
    case Node(r) => r
    case _ => None
  }

  /** The relations a walk has in hand after `path`, having started from `rel`. */
  function InHand(graph: Graph, rel: Relations, path: seq<nat>): Relations {
    if path == [] then rel else RelationsOf(graph, path[|path| - 1])
  }

  /** Each step of `path` is the first `want` link of the one before. */
  ghost predicate FollowsLinks(graph: Graph, want: string, rel: Relations, path: seq<nat>) {
    forall k {:trigger path[k]} :: 0 <= k < |path| ==>
      FirstRelation(InHand(graph, rel, path[..k]), want) == Some(path[k])
  }

  /** Why a direction ends after `path`: its last hop failed, there is no edge to follow, or the
      edge is a repeat or one too many. */
  ghost predicate StopsFor(graph: Graph, want: string, blocked: seq<nat>, rel: Relations, path: seq<nat>) {
    || (path != [] && !graph(path[|path| - 1]).Node?)
    || FirstRelation(InHand(graph, rel, path), want).None?
    || FirstRelation(InHand(graph, rel, path), want).value in path + blocked
    || |path| == 20
  }

  ghost predicate GoodPath(graph: Graph, want: string, blocked: seq<nat>, rel: Relations, path: seq<nat>) {
    && |path| <= CHAIN_MAX_DEPTH
    && Distinct(path)
    && (forall k :: 0 <= k < |path| ==> path[k] !in blocked)
    && FollowsLinks(graph, want, rel, path)
  }

  lemma PathGrows(graph: Graph, want: string, start: Relations, got: seq<nat>, id: nat)
    requires FollowsLinks(graph, want, start, got) && FirstRelation(InHand(graph, start, got), want) == Some(id)
    ensures FollowsLinks(graph, want, start, got + [id])
  {
    var next := got + [id];
    forall k | 0 <= k < |next|
      ensures FirstRelation(InHand(graph, start, next[..k]), want) == Some(next[k])
    {
      if k < |got| {
        assert next[..k] == got[..k];
        assert got[k] == next[k];
      } else {
        assert next[..k] == got;
      }
    }
  }

  lemma GoodPathGrows(graph: Graph, want: string, blocked: seq<nat>, start: Relations, got: seq<nat>, id: nat)
    requires GoodPath(graph, want, blocked, start, got) && |got| < CHAIN_MAX_DEPTH
    requires FirstRelation(InHand(graph, start, got), want) == Some(id) && id !in got && id !in blocked
    ensures GoodPath(graph, want, blocked, start, got + [id])
    ensures InHand(graph, start, got + [id]) == RelationsOf(graph, id)
  {
    PathGrows(graph, want, start, got, id);
  }

  /** The walk ends where it stands. */
  predicate Ends(want: string, blocked: seq<nat>, rel: Relations, got: seq<nat>, hops: nat) {
    match FirstRelation(rel, want)
    case None => true
    case Some(id) => CHAIN_MAX_DEPTH <= hops || id in got || id in blocked
  }

  lemma EndIsGood(graph: Graph, want: string, blocked: seq<nat>, start: Relations, got: seq<nat>)
    requires GoodPath(graph, want, blocked, start, got)
    requires Ends(want, blocked, InHand(graph, start, got), got, |got|)
    ensures Walk(graph, want, blocked, InHand(graph, start, got), got, |got|) == got
    ensures StopsFor(graph, want, blocked, start, got)
  {
  }

  lemma FailedHopIsGood(graph: Graph, want: string, blocked: seq<nat>, start: Relations, got: seq<nat>, id: nat)
    requires GoodPath(graph, want, blocked, start, got) && |got| < CHAIN_MAX_DEPTH
    requires FirstRelation(InHand(graph, start, got), want) == Some(id) && id !in got && id !in blocked
    requires !graph(id).Node?
    ensures Walk(graph, want, blocked, InHand(graph, start, got), got, |got|) == got + [id]
    ensures StopsFor(graph, want, blocked, start, got + [id])
  {
    assert (got + [id])[|got|] == id;
  }

  lemma {:induction false} WalkIsGood(graph: Graph, want: string, blocked: seq<nat>, start: Relations,
                                      got: seq<nat>, hops: nat)
    requires hops == |got| && GoodPath(graph, want, blocked, start, got)
    ensures var path := Walk(graph, want, blocked, InHand(graph, start, got), got, hops);
            GoodPath(graph, want, blocked, start, path) && StopsFor(graph, want, blocked, start, path)
    decreases CHAIN_MAX_DEPTH - hops
  {
    var rel := InHand(graph, start, got);
    if Ends(want, blocked, rel, got, hops) {
      EndIsGood(graph, want, blocked, start, got);
    } else {
      var id := FirstRelation(rel, want).value;
      GoodPathGrows(graph, want, blocked, start, got, id);
      if graph(id).Node? {
        WalkIsGood(graph, want, blocked, start, got + [id], hops + 1);
      } else {
        FailedHopIsGood(graph, want, blocked, start, got, id);
      }
    }
  }

  /** The relations the walk uses for a member of its chain. */
  function Known(graph: Graph, anchor: nat, rel: Relations, id: nat): Relations {
    if id == anchor then rel else RelationsOf(graph, id)
  }

  /** A path's links, in terms of the member each one leaves from. */
  lemma LinkFromMember(graph: Graph, want: string, anchor: nat, blocked: seq<nat>, rel: Relations, path: seq<nat>, k: nat)
    requires GoodPath(graph, want, blocked, rel, path) && anchor in blocked && k < |path|
    ensures FirstRelation(Known(graph, anchor, rel, if k == 0 then anchor else path[k - 1]), want) == Some(path[k])
  {
  }

  /** Members of the chain as members of the two walks. */
  lemma ChainMembers(graph: Graph, anchor: nat, rel: Relations)
    ensures var (back, after) := (Walk(graph, "PREQUEL", [anchor], rel, [], 0), After(graph, anchor, rel));
            var chain := Chain(graph, anchor, rel);
            && |Before(graph, anchor, rel)| == |back| && |chain| == |back| + 1 + |after|
            && (forall k :: 0 <= k < |back| ==> chain[k] == back[|back| - 1 - k])
            && chain[|back|] == anchor
            && (forall k :: 0 <= k < |after| ==> chain[|back| + 1 + k] == after[k])
  {
    MembersOf(Walk(graph, "PREQUEL", [anchor], rel, [], 0), anchor, After(graph, anchor, rel));
  }

  lemma MembersOf(back: seq<nat>, anchor: nat, after: seq<nat>)
    ensures var chain := Reverse(back) + [anchor] + after;
            && (forall k :: 0 <= k < |back| ==> chain[k] == back[|back| - 1 - k])
            && chain[|back|] == anchor
            && (forall k :: 0 <= k < |after| ==> chain[|back| + 1 + k] == after[k])
  {
  }

  lemma NeighboursOf(back: seq<nat>, anchor: nat, after: seq<nat>, k: nat)
    requires k < |back|
    ensures var chain := Reverse(back) + [anchor] + after;
            var b := |back| - 1 - k;
            chain[k] == back[b] && chain[k + 1] == if b == 0 then anchor else back[b - 1]
  {
  }

  lemma BackwardLinks(graph: Graph, anchor: nat, rel: Relations, k: nat)
    requires k < |Before(graph, anchor, rel)|
    ensures var chain := Chain(graph, anchor, rel);
            FirstRelation(Known(graph, anchor, rel, chain[k + 1]), "PREQUEL") == Some(chain[k])
  {
    var back := Walk(graph, "PREQUEL", [anchor], rel, [], 0);
    WalkIsGood(graph, "PREQUEL", [anchor], rel, [], 0);
    LinkFromMember(graph, "PREQUEL", anchor, [anchor], rel, back, |back| - 1 - k);
    NeighboursOf(back, anchor, After(graph, anchor, rel), k);
  }

  lemma ForwardLinks(graph: Graph, anchor: nat, rel: Relations, s: nat)
    requires s < |After(graph, anchor, rel)|
    ensures var chain := Chain(graph, anchor, rel);
            var a := |Before(graph, anchor, rel)|;
            FirstRelation(Known(graph, anchor, rel, chain[a + s]), "SEQUEL") == Some(chain[a + s + 1])
  {
    var before, after := Before(graph, anchor, rel), After(graph, anchor, rel);
    var chain, a := Chain(graph, anchor, rel), |before|;
    assert chain[a + s + 1] == after[s] && chain[a + s] == if s == 0 then anchor else after[s - 1] by {
      ChainMembers(graph, anchor, rel);
    }
    assert FirstRelation(Known(graph, anchor, rel, if s == 0 then anchor else after[s - 1]), "SEQUEL") == Some(after[s]) by {
      WalkIsGood(graph, "SEQUEL", before + [anchor], rel, [], 0);
      assert anchor in before + [anchor];
      LinkFromMember(graph, "SEQUEL", anchor, before + [anchor], rel, after, s);
    }
  }

  lemma ChainIsDistinct(graph: Graph, anchor: nat, rel: Relations)
    ensures |Before(graph, anchor, rel)| <= 20 && |After(graph, anchor, rel)| <= 20
    ensures Distinct(Chain(graph, anchor, rel))
  {
    var back := Walk(graph, "PREQUEL", [anchor], rel, [], 0);
    var before, after := Before(graph, anchor, rel), After(graph, anchor, rel);
    WalkIsGood(graph, "PREQUEL", [anchor], rel, [], 0);
    WalkIsGood(graph, "SEQUEL", before + [anchor], rel, [], 0);
    var head := before + [anchor];
    ReverseThenAnchor(back, anchor);
    DistinctConcat(head, after);
  }

  lemma ReverseThenAnchor(back: seq<nat>, anchor: nat)
    requires Distinct(back) && forall k :: 0 <= k < |back| ==> back[k] !in [anchor]
    ensures Distinct(Reverse(back) + [anchor])
  {
  }

  lemma DistinctConcat(a: seq<nat>, b: seq<nat>)
    requires Distinct(a) && Distinct(b) && forall k :: 0 <= k < |b| ==> b[k] !in a
    ensures Distinct(a + b)
  {
  }

  /** On any graph whatsoever: at most 41 pairwise distinct ids, the anchor once, and each
      neighbouring pair joined by a first PREQUEL link (up to the anchor) or SEQUEL link (after). */
  lemma ChainIsSound(graph: Graph, anchor: nat, rel: Relations)
    ensures var chain := Chain(graph, anchor, rel);
            var a := |Before(graph, anchor, rel)|;
            && a <= 20 && |chain| <= a + 21
            && Distinct(chain)
            && chain[a] == anchor
            && (forall k :: 0 <= k < a ==>
                  FirstRelation(Known(graph, anchor, rel, chain[k + 1]), "PREQUEL") == Some(chain[k]))
            && (forall k :: a <= k < |chain| - 1 ==>
                  FirstRelation(Known(graph, anchor, rel, chain[k]), "SEQUEL") == Some(chain[k + 1]))
  {
    var chain := Chain(graph, anchor, rel);
    var a := |Before(graph, anchor, rel)|;
    ChainIsDistinct(graph, anchor, rel);
    forall k | 0 <= k < a
      ensures FirstRelation(Known(graph, anchor, rel, chain[k + 1]), "PREQUEL") == Some(chain[k])
    {
      BackwardLinks(graph, anchor, rel, k);
    }
    forall k | a <= k < |chain| - 1
      ensures FirstRelation(Known(graph, anchor, rel, chain[k]), "SEQUEL") == Some(chain[k + 1])
    {
      ForwardLinks(graph, anchor, rel, k - a);
    }
  }

  /** Each direction ends only at a missing edge, a failed hop, a repeat or the depth cap. */
  lemma ChainIsComplete(graph: Graph, anchor: nat, rel: Relations)
    ensures StopsFor(graph, "PREQUEL", [anchor], rel, Reverse(Before(graph, anchor, rel)))
    ensures StopsFor(graph, "SEQUEL", Before(graph, anchor, rel) + [anchor], rel, After(graph, anchor, rel))
  {
    WalkIsGood(graph, "PREQUEL", [anchor], rel, [], 0);
    WalkIsGood(graph, "SEQUEL", Before(graph, anchor, rel) + [anchor], rel, [], 0);
    assert Reverse(Before(graph, anchor, rel)) == Walk(graph, "PREQUEL", [anchor], rel, [], 0);
  }

  // ── Simple chains ───────────────────────────────────────────────────────

  /** `ids` are the cours of one show in order: first PREQUEL and SEQUEL edges lead to the
      neighbours and nowhere else, and every hop succeeds. */
  ghost predicate SimpleChain(graph: Graph, ids: seq<nat>) {
    && ids != []
    && Distinct(ids)
    && (forall k :: 0 <= k < |ids| ==>
          && graph(ids[k]).Node?
          && FirstRelation(RelationsOf(graph, ids[k]), "PREQUEL") == (if k > 0 then Some(ids[k - 1]) else None)
          && FirstRelation(RelationsOf(graph, ids[k]), "SEQUEL") == (if k < |ids| - 1 then Some(ids[k + 1]) else None))
  }

  lemma {:induction false} BackwardWalk(graph: Graph, ids: seq<nat>, k: nat, j: nat)
    requires SimpleChain(graph, ids) && j <= k < |ids| && k - j <= CHAIN_MAX_DEPTH
    ensures Walk(graph, "PREQUEL", [ids[k]], RelationsOf(graph, ids[j]), Reverse(ids[j..k]), k - j)
         == Reverse(ids[Max(0, k - CHAIN_MAX_DEPTH)..k])
    decreases j
  {
    assert FirstRelation(RelationsOf(graph, ids[j]), "PREQUEL") == (if j > 0 then Some(ids[j - 1]) else None);
    if j > 0 && k - j < CHAIN_MAX_DEPTH {
      assert graph(ids[j - 1]).Node? && ids[j - 1] !in [ids[k]];
      assert forall i :: 0 <= i < k - j ==> Reverse(ids[j..k])[i] == ids[k - 1 - i];
      assert ids[j - 1] !in Reverse(ids[j..k]);
      assert Reverse(ids[j..k]) + [ids[j - 1]] == Reverse(ids[j - 1..k]);
      BackwardWalk(graph, ids, k, j - 1);
    }
  }

  lemma {:induction false} ForwardWalk(graph: Graph, ids: seq<nat>, k: nat, j: nat, lo: nat)
    requires SimpleChain(graph, ids) && lo <= k <= j < |ids| && j - k <= CHAIN_MAX_DEPTH
    ensures Walk(graph, "SEQUEL", ids[lo..k + 1], RelationsOf(graph, ids[j]), ids[k + 1..j + 1], j - k)
         == ids[k + 1..Min(|ids|, k + 1 + CHAIN_MAX_DEPTH)]
    decreases |ids| - j
  {
    assert FirstRelation(RelationsOf(graph, ids[j]), "SEQUEL") == (if j < |ids| - 1 then Some(ids[j + 1]) else None);
    if j < |ids| - 1 && j - k < CHAIN_MAX_DEPTH {
      assert graph(ids[j + 1]).Node?;
      assert ids[j + 1] !in ids[k + 1..j + 1] && ids[j + 1] !in ids[lo..k + 1];
      assert ids[k + 1..j + 1] + [ids[j + 1]] == ids[k + 1..j + 2];
      ForwardWalk(graph, ids, k, j + 1, lo);
    }
  }

  /** From the k-th cour the walk sees exactly the window of twenty cours either side. */
  lemma ChainIsWindow(graph: Graph, ids: seq<nat>, k: nat)
    requires SimpleChain(graph, ids) && k < |ids|
    ensures Chain(graph, ids[k], RelationsOf(graph, ids[k]))
         == ids[Max(0, k - 20)..Min(|ids|, k + 21)]
  {
    var lo, hi := Max(0, k - CHAIN_MAX_DEPTH), Min(|ids|, k + 1 + CHAIN_MAX_DEPTH);
    BeforeIsWindow(graph, ids, k);
    AfterIsWindow(graph, ids, k, lo);
    Glue(ids, lo, k, hi);
  }

  lemma Glue(ids: seq<nat>, lo: nat, k: nat, hi: nat)
    requires lo <= k < hi <= |ids|
    ensures ids[lo..k] + [ids[k]] == ids[lo..k + 1]
    ensures ids[lo..k] + [ids[k]] + ids[k + 1..hi] == ids[lo..hi]
  {
  }

  lemma BeforeIsWindow(graph: Graph, ids: seq<nat>, k: nat)
    requires SimpleChain(graph, ids) && k < |ids|
    ensures Before(graph, ids[k], RelationsOf(graph, ids[k])) == ids[Max(0, k - CHAIN_MAX_DEPTH)..k]
  {
    assert Reverse(ids[k..k]) == [];
    BackwardWalk(graph, ids, k, k);
    var window := ids[Max(0, k - CHAIN_MAX_DEPTH)..k];
    assert Reverse(Reverse(window)) == window;
  }

  lemma AfterIsWindow(graph: Graph, ids: seq<nat>, k: nat, lo: nat)
    requires SimpleChain(graph, ids) && lo <= k < |ids|
    requires Before(graph, ids[k], RelationsOf(graph, ids[k])) == ids[lo..k]
    ensures After(graph, ids[k], RelationsOf(graph, ids[k])) == ids[k + 1..Min(|ids|, k + 1 + CHAIN_MAX_DEPTH)]
  {
    assert ids[k + 1..k + 1] == [];
    Glue(ids, lo, k, k + 1);
    ForwardWalk(graph, ids, k, k, lo);
  }

  /** Every member of a simple chain gives the same list if and only if the chain has at most 21
      members, and that list is then the whole chain. */
  lemma AnchorIndependentExactlyWhen(graph: Graph, ids: seq<nat>)
    requires SimpleChain(graph, ids)
    ensures (forall i, j :: 0 <= i < |ids| && 0 <= j < |ids| ==>
               Chain(graph, ids[i], RelationsOf(graph, ids[i])) == Chain(graph, ids[j], RelationsOf(graph, ids[j])))
            <==> |ids| <= 21
    ensures |ids| <= 21 ==>
              forall k :: 0 <= k < |ids| ==> Chain(graph, ids[k], RelationsOf(graph, ids[k])) == ids
  {
    forall k | 0 <= k < |ids|
      ensures Chain(graph, ids[k], RelationsOf(graph, ids[k]))
           == ids[Max(0, k - CHAIN_MAX_DEPTH)..Min(|ids|, k + 1 + CHAIN_MAX_DEPTH)]
    {
      ChainIsWindow(graph, ids, k);
    }
    if |ids| > CHAIN_MAX_DEPTH + 1 {
      var first := Chain(graph, ids[0], RelationsOf(graph, ids[0]));
      var last := Chain(graph, ids[|ids| - 1], RelationsOf(graph, ids[|ids| - 1]));
      assert first[0] == ids[0] && last[0] == ids[|ids| - 1 - CHAIN_MAX_DEPTH];
    }
  }

  // ── Seasons ─────────────────────────────────────────────────────────────

  /** The season fields `lookup` fills in. */
  datatype Seasons = Seasons(count: nat, ids: seq<string>)

  function Decimal(n: nat): (s: string)
    ensures |s| > 0 && '0' <= s[|s| - 1] <= '9'
  {
    var digit := ('0' as int + n % 10) as char;
    if n < 10 then [digit] else Decimal(n / 10) + [digit]
  }

  function SeasonId(id: nat): string { "anilist-" + Decimal(id) }

  /** The number a string of digits stands for. */
  function DigitsValue(s: string): int {
    if s == "" then 0 else 10 * DigitsValue(s[..|s| - 1]) + (s[|s| - 1] as int - '0' as int)
  }

  /** A season id is the word `anilist`, a dash and the media's number in decimal digits. */
  lemma {:induction false} SeasonIdReads(id: nat)
    ensures SeasonId(id)[..8] == "anilist-"
    ensures DigitsValue(SeasonId(id)[8..]) == id
    ensures forall i :: 8 <= i < |SeasonId(id)| ==> '0' <= SeasonId(id)[i] <= '9'
  {
    assert SeasonId(id)[8..] == Decimal(id);
    var d := Decimal(id);
    if id >= 10 {
      SeasonIdReads(id / 10);
      var init := SeasonId(id / 10)[8..];
      assert init == Decimal(id / 10) && d == init + [d[|d| - 1]] && d[..|d| - 1] == init;
      forall i | 8 <= i < |SeasonId(id)|
        ensures '0' <= SeasonId(id)[i] <= '9'
      {
        assert i < |SeasonId(id)| - 1 ==> SeasonId(id)[i] == SeasonId(id / 10)[i];
      }
    } else {
      assert d[..|d| - 1] == "";
    }
  }

  function SeasonIds(chain: seq<nat>): (r: seq<string>) {
    seq(|chain|, i requires 0 <= i < |chain| => SeasonId(chain[i]))
  }

  /** `lookup` from the fetched media on: movies are not walked at all. */
  method FillSeasons(graph: Graph, movie: bool, anchor: nat, rel: Relations) returns (s: Seasons)
    ensures movie ==> s == Seasons(1, [])
    ensures !movie ==> s.count == |Chain(graph, anchor, rel)|
    ensures !movie ==> |s.ids| == if s.count > 1 then s.count else 0
    ensures !movie ==> forall i :: 0 <= i < |s.ids| ==> s.ids[i] == SeasonId(Chain(graph, anchor, rel)[i])
    ensures !movie && rel == RelationsOf(graph, anchor) ==> s == Reported(graph, anchor)
  {
    var chain: seq<nat> := [];
    if !movie {
      ghost var asked;
      chain, asked := WalkChain(graph, anchor, rel);
    }
    if |chain| > 1 {
      s := Seasons(|chain|, SeasonIds(chain));
    } else {
      s := Seasons(1, []);
    }
  }

  /** What `FillSeasons` reports for a show that is not a movie. */
  function Reported(graph: Graph, anchor: nat): Seasons {
    var chain := Chain(graph, anchor, RelationsOf(graph, anchor));
    Seasons(|chain|, if |chain| > 1 then SeasonIds(chain) else [])
  }

  lemma {:induction false} DecimalIsInjective(m: nat, n: nat)
    ensures Decimal(m) == Decimal(n) <==> m == n
  {
    if m != n && m >= 10 && n >= 10 && Decimal(m) == Decimal(n) {
      var a, b := Decimal(m), Decimal(n);
      assert a[..|a| - 1] == Decimal(m / 10) && b[..|b| - 1] == Decimal(n / 10);
      assert a[|a| - 1] as int == '0' as int + m % 10 && b[|b| - 1] as int == '0' as int + n % 10;
      DecimalIsInjective(m / 10, n / 10);
    }
  }

  lemma SeasonIdIsInjective(m: nat, n: nat)
    ensures SeasonId(m) == SeasonId(n) <==> m == n
  {
    if SeasonId(m) == SeasonId(n) {
      assert Decimal(m) == SeasonId(m)[|"anilist-"|..];
      assert Decimal(n) == SeasonId(n)[|"anilist-"|..];
      DecimalIsInjective(m, n);
    }
  }

  /** On any graph a show lists each of its seasons once. */
  lemma SeasonsAreDistinct(graph: Graph, anchor: nat)
    ensures Distinct(Reported(graph, anchor).ids)
    ensures Reported(graph, anchor).count > 1 ==>
              |Reported(graph, anchor).ids| == Reported(graph, anchor).count
              && SeasonId(anchor) in Reported(graph, anchor).ids
  {
    var rel := RelationsOf(graph, anchor);
    var chain := Chain(graph, anchor, rel);
    ChainIsDistinct(graph, anchor, rel);
    var ids := SeasonIds(chain);
    forall i, j | 0 <= i < j < |ids|
      ensures ids[i] != ids[j]
    {
      SeasonIdIsInjective(chain[i], chain[j]);
    }
    assert ids[|Before(graph, anchor, rel)|] == SeasonId(anchor);
  }

  /** Every cour of a simple chain of at most 21 reports the same seasons: all of them, in order. */
  lemma CoursReportTheSameSeasons(graph: Graph, ids: seq<nat>, k: nat)
    requires SimpleChain(graph, ids) && |ids| <= 21 && k < |ids|
    ensures Reported(graph, ids[k]) == Seasons(|ids|, if |ids| > 1 then SeasonIds(ids) else [])
  {
    AnchorIndependentExactlyWhen(graph, ids);
  }
}
