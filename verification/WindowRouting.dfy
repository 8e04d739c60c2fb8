/**
 Windowed routing: the fingerprint that decides whether the gateway must swap
 its window nodes, and the resolution that builds them over a connection cache.
 */
module WindowRouting {
  import opened Wrappers
  import opened LittleEndian
  import opened Sorting
  import opened RoutingPlan

  // ------------------------------------------------------------- the fingerprint

  predicate CharLe(a: char, b: char) {
    a <= b
  }

  predicate StringLe(a: string, b: string) {
    LexLe(CharLe, a, b)
  }

  /** One fingerprint entry: window, primary, sorted replicas, tier. */
  datatype Print = Print(window: int, primary: Endpoint, replicas: seq<Endpoint>, cold: bool)

  predicate PrintLe(a: Print, b: Print) {
    if a.window != b.window then a.window < b.window
    else if a.primary != b.primary then StringLe(a.primary, b.primary)
    else if a.replicas != b.replicas then LexLe(StringLe, a.replicas, b.replicas)
    else a.cold ==> b.cold
  }

  lemma StringsAreOrdered()
    ensures Order(StringLe)
  {
    forall a, b ensures StringLe(a, b) || StringLe(b, a) { LexIsTotal(CharLe, a, b); }
    forall a, b | StringLe(a, b) && StringLe(b, a) ensures a == b { LexIsAntisymmetric(CharLe, a, b); }
    forall a, b, c | StringLe(a, b) && StringLe(b, c) ensures StringLe(a, c) { LexIsTransitive(CharLe, a, b, c); }
  }

  lemma PrintsCompare(a: Print, b: Print, c: Print)
    ensures PrintLe(a, b) || PrintLe(b, a)
    ensures PrintLe(a, b) && PrintLe(b, a) ==> a == b
    ensures PrintLe(a, b) && PrintLe(b, c) ==> PrintLe(a, c)
  {
    hide StringLe;
    StringsAreOrdered();
    LexIsTotal(StringLe, a.replicas, b.replicas);
    if LexLe(StringLe, a.replicas, b.replicas) && LexLe(StringLe, b.replicas, a.replicas) {
      LexIsAntisymmetric(StringLe, a.replicas, b.replicas);
    }
    if LexLe(StringLe, a.replicas, b.replicas) && LexLe(StringLe, b.replicas, c.replicas) {
      LexIsTransitive(StringLe, a.replicas, b.replicas, c.replicas);
      if a.replicas == c.replicas { LexIsAntisymmetric(StringLe, a.replicas, b.replicas); }
    }
    if StringLe(a.primary, b.primary) && StringLe(b.primary, c.primary) && a.primary == c.primary {
      assert a.primary == b.primary;
    }
  }

  lemma PrintsAreOrdered()
    ensures Order(PrintLe)
  {
    hide PrintLe;
    forall a, b ensures (PrintLe(a, b) || PrintLe(b, a)) && (PrintLe(a, b) && PrintLe(b, a) ==> a == b) {
      PrintsCompare(a, b, a);
    }
    forall a, b, c | PrintLe(a, b) && PrintLe(b, c) ensures PrintLe(a, c) { PrintsCompare(a, b, c); }
  }

  function Assigned(eps: seq<Endpoint>): seq<Endpoint> {
    if eps == [] then []
    else if eps[0] == "" then Assigned(eps[1..])
    else [eps[0]] + Assigned(eps[1..])
  }

  function Windows(shards: seq<ShardStatus>): seq<ShardStatus> {
    if shards == [] then []
    else if shards[0].window != 0 then [shards[0]] + Windows(shards[1..])
    else Windows(shards[1..])
  }

  function PrintOf(): ShardStatus -> Print {
    (s: ShardStatus) => Print(s.window, s.primary, Sort(StringLe, Assigned(s.replicas)), s.cold)
  }

  function Fingerprint(shards: seq<ShardStatus>): seq<Print> {
    Sort(PrintLe, Map(PrintOf(), Windows(shards)))
  }

  /** What routing depends on: a window, its primary, its replicas that are set, and its tier. */
  datatype Facts = Facts(window: int, primary: Endpoint, replicas: multiset<Endpoint>, cold: bool)

  ghost function FactsOf(): ShardStatus -> Facts {
    (s: ShardStatus) => Facts(s.window, s.primary, multiset(s.replicas)["" := 0], s.cold)
  }

  /** The entries of an answer that are windows and that `f` maps to `x`. */
  ghost function Entries<X(!new)>(f: ShardStatus -> X, shards: seq<ShardStatus>, x: X): set<nat> {
    set i: nat | i < |shards| && shards[i].window != 0 && f(shards[i]) == x
  }

  /** Two answers describe the same windows, holders and tiers, equally often, in whatever order they list them. */
  ghost predicate SameRouting(a: seq<ShardStatus>, b: seq<ShardStatus>) {
    forall x: Facts :: |Entries(FactsOf(), a, x)| == |Entries(FactsOf(), b, x)|
  }

  lemma {:induction false} WindowsOfLast(shards: seq<ShardStatus>, s: ShardStatus)
    ensures Windows(shards + [s]) == Windows(shards) + if s.window != 0 then [s] else []
    decreases |shards|
  {
    if shards == [] {
      assert [s][1..] == [];
    } else {
      WindowsOfLast(shards[1..], s);
      assert (shards + [s])[1..] == shards[1..] + [s];
    }
  }

  /** The windows of an answer are its entries with a window, each as often as it is listed. */
  lemma {:induction false} WindowsCount<X(!new)>(f: ShardStatus -> X, shards: seq<ShardStatus>, x: X)
    ensures multiset(Map(f, Windows(shards)))[x] == |Entries(f, shards, x)|
    decreases |shards|
  {
    hide Map, Entries;
    if shards == [] {
      NoEntries(f, x);
    } else {
      var k: nat := |shards| - 1;
      var before, s := shards[..k], shards[k];
      WindowsCount(f, before, x);
      assert shards == before + [s];
      WindowsOfLast(before, s);
      EntriesOfLast(f, before, s, x);
      MapOfLast(f, Windows(before), s);
    }
  }

  lemma NoEntries<X(!new)>(f: ShardStatus -> X, x: X)
    ensures |Entries(f, [], x)| == 0 && Map(f, []) == []
  {
    assert Entries(f, [], x) == {};
  }

  lemma EntriesOfLast<X(!new)>(f: ShardStatus -> X, before: seq<ShardStatus>, s: ShardStatus, x: X)
    ensures |Entries(f, before + [s], x)| == |Entries(f, before, x)| + if s.window != 0 && f(s) == x then 1 else 0
  {
    var k: nat, shards := |before|, before + [s];
    assert Entries(f, shards, x) == Entries(f, before, x) + if s.window != 0 && f(s) == x then {k} else {};
    assert k !in Entries(f, before, x);
  }

  lemma MapOfLast<X>(f: ShardStatus -> X, before: seq<ShardStatus>, s: ShardStatus)
    ensures Map(f, before + [s]) == Map(f, before) + [f(s)] && Map(f, before + []) == Map(f, before)
  {
    assert before + [] == before;
  }

  /** Every entry with a window is among the windows, and nothing else is. */
  lemma {:induction false} WindowsAre(shards: seq<ShardStatus>, s: ShardStatus)
    ensures s in Windows(shards) <==> s in shards && s.window != 0
    decreases |shards|
  {
    if shards != [] {
      assert shards == [shards[0]] + shards[1..];
      WindowsAre(shards[1..], s);
    }
  }

  lemma {:induction false} AssignedAre(eps: seq<Endpoint>)
    ensures multiset(Assigned(eps)) == multiset(eps)["" := 0]
    ensures forall ep :: ep in Assigned(eps) <==> ep in eps && ep != ""
    decreases |eps|
  {
    if eps != [] {
      assert eps == [eps[0]] + eps[1..];
      AssignedAre(eps[1..]);
    }
  }

  lemma SameCounts<X(!new)>(f: ShardStatus -> X, a: seq<ShardStatus>, b: seq<ShardStatus>)
    ensures multiset(Map(f, Windows(a))) == multiset(Map(f, Windows(b)))
            <==> forall x: X :: |Entries(f, a, x)| == |Entries(f, b, x)|
  {
    hide Windows, Map, Entries;
    var ma, mb := multiset(Map(f, Windows(a))), multiset(Map(f, Windows(b)));
    forall x: X ensures ma[x] == |Entries(f, a, x)| && mb[x] == |Entries(f, b, x)| {
      WindowsCount(f, a, x);
      WindowsCount(f, b, x);
    }
    if forall x: X :: |Entries(f, a, x)| == |Entries(f, b, x)| {
      forall x: X ensures ma[x] == mb[x] {}
    }
  }

  lemma PrintsAreFacts(s: ShardStatus, t: ShardStatus)
    ensures PrintOf()(s) == PrintOf()(t) <==> FactsOf()(s) == FactsOf()(t)
  {
    StringsAreOrdered();
    AssignedAre(s.replicas);
    AssignedAre(t.replicas);
    SortIsCanonical(StringLe, Assigned(s.replicas), Assigned(t.replicas));
  }

  /** Fingerprints are equal exactly when windows, primaries, replica multisets and tiers agree up to order. */
  lemma FingerprintIff(a: seq<ShardStatus>, b: seq<ShardStatus>)
    ensures Fingerprint(a) == Fingerprint(b) <==> SameRouting(a, b)
  {
    hide PrintLe, PrintOf, FactsOf, Sort, Map, Entries;
    SameCounts(FactsOf(), a, b);
    var p, f, wa, wb := PrintOf(), FactsOf(), Windows(a), Windows(b);
    PrintsAreOrdered();
    SortIsCanonical(PrintLe, Map(p, wa), Map(p, wb));
    forall x, y | x in wa && y in wb ensures p(x) == p(y) <==> f(x) == f(y) { PrintsAreFacts(x, y); }
    if multiset(Map(p, wa)) == multiset(Map(p, wb)) { MapsAgree(p, f, wa, wb); }
    if multiset(Map(f, wa)) == multiset(Map(f, wb)) { MapsAgree(f, p, wa, wb); }
  }

  /** The fingerprint does not see the event-time bounds the gateway prunes by. */
  lemma {:induction false} FingerprintIgnoresBounds(a: seq<ShardStatus>, b: seq<ShardStatus>)
    requires |a| == |b| && forall i :: 0 <= i < |a| ==> a[i] == b[i].(bounds := a[i].bounds)
    ensures Fingerprint(a) == Fingerprint(b)
  {
    PrintsIgnoreBounds(a, b);
  }

  lemma {:induction false} PrintsIgnoreBounds(a: seq<ShardStatus>, b: seq<ShardStatus>)
    requires |a| == |b| && forall i :: 0 <= i < |a| ==> a[i] == b[i].(bounds := a[i].bounds)
    ensures Map(PrintOf(), Windows(a)) == Map(PrintOf(), Windows(b))
  {
    if a != [] {
      PrintsIgnoreBounds(a[1..], b[1..]);
      var p := PrintOf();
      assert p(a[0]) == p(b[0]);
      if a[0].window != 0 {
        assert Map(p, [a[0]] + Windows(a[1..])) == [p(a[0])] + Map(p, Windows(a[1..]));
        assert Map(p, [b[0]] + Windows(b[1..])) == [p(b[0])] + Map(p, Windows(b[1..]));
      }
    }
  }

  // ------------------------------------------------------------------ resolution

  /** A connection handle: which endpoint it dials, and which dial it came from. */
  datatype Conn = Conn(endpoint: Endpoint, dial: nat)

  type Conns = map<Endpoint, Conn>

  datatype Node = Node(window: int, holders: seq<Conn>, bounds: Option<(i64, i64)>, cold: bool)

  datatype ResolveError = NoWindowing | UnknownGranularity | NoWindows | NoPrimaryYet(window: int) | CannotConnect(endpoint: Endpoint)

  predicate KnownGranularity(g: string) {
    g == "hourly" || g == "daily" || g == "weekly"
  }

  /** The holders of a window: primary first, then each assigned replica not already listed. */
  function HoldersFrom(eps: seq<Endpoint>, replicas: seq<Endpoint>): seq<Endpoint>
    decreases |replicas|
  {
    if replicas == [] then eps
    else if replicas[0] != "" && replicas[0] !in eps then HoldersFrom(eps + [replicas[0]], replicas[1..])
    else HoldersFrom(eps, replicas[1..])
  }

  function Holders(s: ShardStatus): seq<Endpoint> {
    HoldersFrom([s.primary], s.replicas)
  }

  lemma {:induction false} HoldersAre(eps: seq<Endpoint>, replicas: seq<Endpoint>)
    requires forall i, j :: 0 <= i < j < |eps| ==> eps[i] != eps[j]
    ensures var h := HoldersFrom(eps, replicas);
            && eps <= h && (forall i, j :: 0 <= i < j < |h| ==> h[i] != h[j])
            && (forall ep :: ep in h <==> ep in eps || ep in Assigned(replicas))
    decreases |replicas|
  {
    if replicas != [] {
      if replicas[0] != "" && replicas[0] !in eps {
        HoldersAre(eps + [replicas[0]], replicas[1..]);
      } else {
        HoldersAre(eps, replicas[1..]);
      }
    }
  }

  /** The holders, collected by walking the replicas: the primary first, each endpoint once. */
  method HolderEndpoints(s: ShardStatus) returns (eps: seq<Endpoint>)
    ensures eps == Holders(s) && [s.primary] <= eps
    ensures forall i, j :: 0 <= i < j < |eps| ==> eps[i] != eps[j]
    ensures forall ep :: ep in eps <==> ep == s.primary || (ep in s.replicas && ep != "")
  {
    eps := [s.primary];
    for i := 0 to |s.replicas|
      invariant Holders(s) == HoldersFrom(eps, s.replicas[i..])
    {
      assert s.replicas[i..][1..] == s.replicas[i + 1..];
      if s.replicas[i] != "" && s.replicas[i] !in eps {
        eps := eps + [s.replicas[i]];
      }
    }
    HoldersAre([s.primary], s.replicas);
    AssignedAre(s.replicas);
  }

  /** Everything the windows of an answer refer to. */
  function Referenced(windows: seq<ShardStatus>): set<Endpoint> {
    set s, ep | s in windows && ep in Holders(s) :: ep
  }

  function Handles(conns: Conns, eps: seq<Endpoint>): seq<Conn>
    requires forall ep :: ep in eps ==> ep in conns
  {
    seq(|eps|, i requires 0 <= i < |eps| => conns[eps[i]])
  }

  /** The nodes route each window to its holders over the cached connections. */
  ghost predicate Routes(nodes: seq<Node>, windows: seq<ShardStatus>, conns: Conns) {
    |nodes| == |windows| && forall i :: 0 <= i < |windows| ==>
      && (forall ep :: ep in Holders(windows[i]) ==> ep in conns)
      && nodes[i] == Node(windows[i].window, Handles(conns, Holders(windows[i])), windows[i].bounds, windows[i].cold)
  }

  ghost predicate CacheOk(conns: Conns) {
    forall ep :: ep in conns ==> conns[ep].endpoint == ep
  }

  /** Nothing the cache held was dropped or redialled. */
  ghost predicate Extends(conns: Conns, more: Conns) {
    forall ep :: ep in conns ==> ep in more && more[ep] == conns[ep]
  }

  lemma HandlesStand(conns: Conns, more: Conns, eps: seq<Endpoint>)
    requires Extends(conns, more) && forall ep :: ep in eps ==> ep in conns
    ensures Handles(more, eps) == Handles(conns, eps)
  {
  }

  lemma RoutesStand(nodes: seq<Node>, windows: seq<ShardStatus>, conns: Conns, more: Conns)
    requires Routes(nodes, windows, conns) && Extends(conns, more)
    ensures Routes(nodes, windows, more)
  {
    hide Holders, Handles;
    forall i | 0 <= i < |windows| ensures Handles(more, Holders(windows[i])) == Handles(conns, Holders(windows[i])) {
      HandlesStand(conns, more, Holders(windows[i]));
    }
  }

  /** What a node routes: its window, who holds it with the first choice, and its tier. */
  datatype Route = Route(window: int, first: Endpoint, holders: set<Endpoint>, cold: bool)

  ghost function RouteOf(): Node -> Route {
    (n: Node) => Route(n.window, if n.holders == [] then "" else n.holders[0].endpoint,
                       (set i | 0 <= i < |n.holders| :: n.holders[i].endpoint), n.cold)
  }

  /** What an entry of an answer asks for: its primary first, and every replica that is set. */
  ghost function RouteFor(): ShardStatus -> Route {
    (s: ShardStatus) => Route(s.window, s.primary, {s.primary} + (set ep | ep in s.replicas && ep != ""), s.cold)
  }

  /** The nodes are, in whatever order, those the entries with a window ask for, each as often. */
  ghost predicate ServesAnswer(nodes: seq<Node>, shards: seq<ShardStatus>) {
    forall x: Route :: multiset(Map(RouteOf(), nodes))[x] == |Entries(RouteFor(), shards, x)|
  }

  /** The same, window by window. */
  ghost predicate ServesWindows(nodes: seq<Node>, windows: seq<ShardStatus>) {
    multiset(Map(RouteOf(), nodes)) == multiset(Map(RouteFor(), windows))
  }

  lemma ServedAnswer(nodes: seq<Node>, shards: seq<ShardStatus>)
    ensures ServesAnswer(nodes, shards) <==> ServesWindows(nodes, Windows(shards))
  {
    hide Windows, Map, Entries, RouteOf, RouteFor;
    var m, n := multiset(Map(RouteOf(), nodes)), multiset(Map(RouteFor(), Windows(shards)));
    forall x: Route ensures n[x] == |Entries(RouteFor(), shards, x)| { WindowsCount(RouteFor(), shards, x); }
    if ServesAnswer(nodes, shards) {
      forall x: Route ensures m[x] == n[x] {}
    }
  }

  lemma RoutedNode(s: ShardStatus, conns: Conns)
    requires CacheOk(conns) && forall ep :: ep in Holders(s) ==> ep in conns
    ensures RouteOf()(Node(s.window, Handles(conns, Holders(s)), s.bounds, s.cold)) == RouteFor()(s)
  {
    HoldersAre([s.primary], s.replicas);
    AssignedAre(s.replicas);
    var eps, holders := Holders(s), Handles(conns, Holders(s));
    assert eps[0] == s.primary;
    assert forall i :: 0 <= i < |eps| ==> eps[i] in eps && holders[i].endpoint == eps[i];
    assert (set i | 0 <= i < |holders| :: holders[i].endpoint) == {s.primary} + set ep | ep in s.replicas && ep != "";
  }

  /** Nodes resolved from windows serve them. */
  lemma RoutedNodesServe(nodes: seq<Node>, windows: seq<ShardStatus>, conns: Conns)
    requires Routes(nodes, windows, conns) && CacheOk(conns)
    ensures ServesWindows(nodes, windows)
  {
    hide RouteOf, RouteFor, Holders, Handles;
    forall i | 0 <= i < |nodes| ensures RouteOf()(nodes[i]) == RouteFor()(windows[i]) {
      RoutedNode(windows[i], conns);
    }
    assert Map(RouteOf(), nodes) == Map(RouteFor(), windows);
  }

  lemma SameFactsSameRoute(s: ShardStatus, t: ShardStatus)
    requires FactsOf()(s) == FactsOf()(t)
    ensures RouteFor()(s) == RouteFor()(t)
  {
    forall ep | ep != "" ensures ep in s.replicas <==> ep in t.replicas {
      assert ep in s.replicas <==> ep in multiset(s.replicas)["" := 0];
      assert ep in t.replicas <==> ep in multiset(t.replicas)["" := 0];
    }
    assert (set ep | ep in s.replicas && ep != "") == set ep | ep in t.replicas && ep != "";
  }

  /** What serves one answer serves every answer with the same routing. */
  lemma ServesSameRouting(nodes: seq<Node>, a: seq<ShardStatus>, b: seq<ShardStatus>)
    requires ServesAnswer(nodes, a) && SameRouting(a, b)
    ensures ServesAnswer(nodes, b)
  {
    hide RouteOf, RouteFor, FactsOf, Windows, Map, Entries;
    ServedAnswer(nodes, a);
    ServedAnswer(nodes, b);
    SameCounts(FactsOf(), a, b);
    forall x, y | x in Windows(a) && y in Windows(b) && FactsOf()(x) == FactsOf()(y) ensures RouteFor()(x) == RouteFor()(y) {
      SameFactsSameRoute(x, y);
    }
    MapsAgree(FactsOf(), RouteFor(), Windows(a), Windows(b));
  }

  class Reloader {
    var conns: Conns
    var dials: nat
    var last: Option<seq<Print>>
    var live: seq<Node>
    /** The windows of the answer the live nodes were built from. */
    ghost var source: seq<ShardStatus>

    ghost predicate Valid()
      reads this
    {
      && CacheOk(conns) && ServesAnswer(live, source)
      && (last.Some? ==> last.value == Fingerprint(source))
    }

    /** The gateway starts on nodes of its own, resolved from the startup answer; the reloader's cache starts empty. */
    constructor (startup: seq<ShardStatus>, nodes: seq<Node>)
      requires ServesAnswer(nodes, startup)
      ensures Valid() && conns == map[] && live == nodes && source == startup
    {
      conns, dials, live, source := map[], 0, nodes, startup;
      last := Some(Fingerprint(startup));
    }

    /** The cached connection of an endpoint, dialled and cached if it has none. */
    method Connect(ep: Endpoint, dialable: set<Endpoint>) returns (ok: bool)
      requires CacheOk(conns)
      modifies this`conns, this`dials
      ensures CacheOk(conns) && Extends(old(conns), conns)
      ensures ok <==> ep in old(conns) || ep in dialable
      ensures conns.Keys == if ok then old(conns).Keys + {ep} else old(conns).Keys
    {
      if ep in conns {
        return true;
      }
      if ep !in dialable {
        return false;
      }
      conns, dials := conns[ep := Conn(ep, dials)], dials + 1;
      ok := true;
    }

    /** Connect the holders of one window. */
    method ConnectHolders(eps: seq<Endpoint>, dialable: set<Endpoint>) returns (r: Result<seq<Conn>, ResolveError>)
      requires CacheOk(conns)
      modifies this`conns, this`dials
      ensures CacheOk(conns) && Extends(old(conns), conns)
      ensures r.Success? ==> forall ep :: ep in conns <==> ep in old(conns) || ep in eps
      ensures r.Success? ==> r.value == Handles(conns, eps)
      ensures r.Success? ==> forall ep :: ep in eps ==> ep in old(conns) || ep in dialable
      ensures r.Failure? ==> r.error.CannotConnect? && r.error.endpoint in eps
                             && r.error.endpoint !in old(conns) && r.error.endpoint !in dialable
    {
      var holders: seq<Conn> := [];
      for i := 0 to |eps|
        invariant CacheOk(conns) && Extends(old(conns), conns)
        invariant forall ep :: ep in conns <==> ep in old(conns) || ep in eps[..i]
        invariant forall ep :: ep in eps[..i] ==> ep in old(conns) || ep in dialable
        invariant |holders| == i && forall j :: 0 <= j < i ==> eps[j] in conns && holders[j] == conns[eps[j]]
      {
        var ok := Connect(eps[i], dialable);
        if !ok {
          return Failure(CannotConnect(eps[i]));
        }
        assert eps[..i + 1] == eps[..i] + [eps[i]];
        holders := holders + [conns[eps[i]]];
      }
      assert eps[..|eps|] == eps;
      r := Success(holders);
    }

    /** Connect every window's holders, collecting the endpoints referred to. */
    method ConnectAll(windows: seq<ShardStatus>, dialable: set<Endpoint>)
      returns (r: Result<seq<Node>, ResolveError>, referenced: set<Endpoint>)
      requires CacheOk(conns)
      modifies this`conns, this`dials
      ensures CacheOk(conns) && Extends(old(conns), conns)
      ensures r.Success? ==> Routes(r.value, windows, conns) && referenced == Referenced(windows) <= conns.Keys
      ensures r.Success? <==> && (forall s :: s in windows ==> s.primary != "")
                              && Referenced(windows) <= old(conns).Keys + dialable
      ensures r.Failure? ==> && (r.error.NoPrimaryYet? || r.error.CannotConnect?)
                             && (r.error.NoPrimaryYet? ==> exists s :: s in windows && s.window == r.error.window && s.primary == "")
                             && (r.error.CannotConnect? ==> && r.error.endpoint in Referenced(windows)
                                                            && r.error.endpoint !in old(conns) && r.error.endpoint !in dialable)
    {
      hide Holders, Referenced, Handles, Assigned, Routes;
      var nodes: seq<Node> := [];
      referenced := {};
      NothingRouted(conns);
      for i := 0 to |windows|
        invariant CacheOk(conns) && Extends(old(conns), conns)
        invariant Routes(nodes, windows[..i], conns)
        invariant referenced == Referenced(windows[..i]) && conns.Keys == old(conns).Keys + referenced
        invariant referenced <= old(conns).Keys + dialable
        invariant forall s :: s in windows[..i] ==> s.primary != ""
      {
        var s := windows[i];
        if s.primary == "" {
          r := Failure(NoPrimaryYet(s.window));
          return;
        }
        var eps := HolderEndpoints(s);
        ghost var before := conns;
        assert windows[..i + 1] == windows[..i] + [s];
        ReferencedWith(windows[..i], s);
        var holders := ConnectHolders(eps, dialable);
        if holders.Failure? {
          ReferencedPart(windows, i + 1);
          assert holders.error.endpoint in Referenced(windows[..i + 1]);
          r := Failure(holders.error);
          return;
        }
        RoutesStand(nodes, windows[..i], before, conns);
        RoutesWith(nodes, windows[..i], s, conns);
        nodes := nodes + [Node(s.window, holders.value, s.bounds, s.cold)];
        referenced := referenced + set ep | ep in eps;
      }
      assert windows[..|windows|] == windows;
      r := Success(nodes);
    }

    /**
     Build the window nodes of an answer. On success the cache holds exactly the
     endpoints the answer refers to, and an endpoint that stays keeps its
     connection; on failure the cache has lost nothing.
     */
    method Resolve(resp: Response, dialable: set<Endpoint>) returns (r: Result<seq<Node>, ResolveError>)
      requires CacheOk(conns)
      modifies this`conns, this`dials
      ensures CacheOk(conns)
      ensures r.Success? ==> Routes(r.value, Windows(resp.shards), conns) && conns.Keys == Referenced(Windows(resp.shards))
      ensures r.Success? ==> forall ep :: ep in conns && ep in old(conns) ==> conns[ep] == old(conns)[ep]
      ensures r.Failure? ==> Extends(old(conns), conns)
      ensures r == Failure(NoWindowing) <==> resp.windowing.None?
      ensures r == Failure(UnknownGranularity) <==> resp.windowing.Some? && !KnownGranularity(resp.windowing.value.granularity)
      ensures r == Failure(NoWindows)
              <==> resp.windowing.Some? && KnownGranularity(resp.windowing.value.granularity) && Windows(resp.shards) == []
      ensures r.Success? <==> && resp.windowing.Some? && KnownGranularity(resp.windowing.value.granularity)
                              && Windows(resp.shards) != [] && (forall s :: s in Windows(resp.shards) ==> s.primary != "")
                              && Referenced(Windows(resp.shards)) <= old(conns).Keys + dialable
      ensures r.Success? ==> ServesAnswer(r.value, resp.shards) && Carries(r.value, resp.shards)
      ensures r.Success? ==> forall ep :: ep in conns <==> exists i :: 0 <= i < |resp.shards| && Refers(resp.shards[i], ep)
      ensures r.Success? <==> Resolvable(resp, old(conns).Keys + dialable)
      ensures r.Failure? && r.error.NoPrimaryYet? ==>
                exists i :: 0 <= i < |resp.shards| && resp.shards[i].window == r.error.window != 0 && resp.shards[i].primary == ""
      ensures r.Failure? && r.error.CannotConnect? ==>
                && (exists i :: 0 <= i < |resp.shards| && Refers(resp.shards[i], r.error.endpoint))
                && r.error.endpoint !in old(conns) && r.error.endpoint !in dialable
    {
      AnswerIs(resp.shards);
      AnswerReached(resp, conns.Keys + dialable);
      hide Resolvable, Windows, Referenced, Routes, Refers, ServesAnswer, Carries;
      if resp.windowing.None? {
        return Failure(NoWindowing);
      }
      if !KnownGranularity(resp.windowing.value.granularity) {
        return Failure(UnknownGranularity);
      }
      var windows := Windows(resp.shards);
      if windows == [] {
        return Failure(NoWindows);
      }
      var referenced;
      r, referenced := ConnectAll(windows, dialable);
      if r.Success? {
        ghost var all := conns;
        conns := map ep | ep in conns && ep in referenced :: conns[ep];
        RoutesPruned(r.value, windows, all, conns);
        RoutedNodesServe(r.value, windows, conns);
        ServedAnswer(r.value, resp.shards);
        RoutedNodesCarry(r.value, resp.shards, conns);
      } else if r.error.NoPrimaryYet? {
        ghost var s :| s in windows && s.window == r.error.window && s.primary == "";
        WindowsAre(resp.shards, s);
      }
    }

    /**
     One tick: an answer whose fingerprint is the last one changes nothing; any
     other is resolved and swapped in. Whenever the tick reports success, swapped
     or skipped, the live nodes are the windows, holders and tiers this answer
     asks for; a failed tick leaves them in place.
     */
    method Tick(resp: Response, dialable: set<Endpoint>) returns (ok: bool)
      requires Valid()
      modifies this
      ensures Valid()
      ensures ok ==> ServesAnswer(live, resp.shards) && SameRouting(source, resp.shards)
      ensures ok && source != old(source) ==> Routes(live, Windows(source), conns) && conns.Keys == Referenced(Windows(source))
      ensures !ok || (SameRouting(old(source), resp.shards) && old(last).Some?) ==> live == old(live) && source == old(source)
      ensures forall ep :: ep in conns && ep in old(conns) ==> conns[ep] == old(conns)[ep]
    {
      hide Fingerprint, Windows, Referenced, SameRouting, ServesAnswer, Routes, Carries, Refers;
      var fp := Fingerprint(resp.shards);
      FingerprintIff(source, resp.shards);
      if last == Some(fp) {
        ServesSameRouting(live, source, resp.shards);
        return true;
      }
      var nodes := Resolve(resp, dialable);
      if nodes.Failure? {
        return false;
      }
      live, last, source := nodes.value, Some(fp), resp.shards;
      FingerprintIff(source, resp.shards);
      ok := true;
    }
  }

  /** A window of the answer has this endpoint as its primary or among its replicas that are set. */
  predicate Refers(s: ShardStatus, ep: Endpoint) {
    s.window != 0 && (ep == s.primary || (ep in s.replicas && ep != ""))
  }

  /** The node is the entry's: window, bounds, tier, the primary's connection first. */
  ghost predicate NodeFor(n: Node, s: ShardStatus) {
    && n.window == s.window && n.bounds == s.bounds && n.cold == s.cold && n.holders != [] && n.holders[0].endpoint == s.primary
    && (forall ep :: (exists j :: 0 <= j < |n.holders| && n.holders[j].endpoint == ep) <==> ep == s.primary || (ep in s.replicas && ep != ""))
  }

  /** Every entry with a window has a node, and every node is one of them. */
  ghost predicate Carries(nodes: seq<Node>, shards: seq<ShardStatus>) {
    && (forall i :: 0 <= i < |shards| && shards[i].window != 0 ==> exists n :: n in nodes && NodeFor(n, shards[i]))
    && (forall n :: n in nodes ==> exists i :: 0 <= i < |shards| && shards[i].window != 0 && NodeFor(n, shards[i]))
  }

  lemma RoutedNodeIsFor(s: ShardStatus, conns: Conns)
    requires CacheOk(conns) && forall ep :: ep in Holders(s) ==> ep in conns
    ensures NodeFor(Node(s.window, Handles(conns, Holders(s)), s.bounds, s.cold), s)
  {
    HoldersAre([s.primary], s.replicas);
    AssignedAre(s.replicas);
    var eps, holders := Holders(s), Handles(conns, Holders(s));
    assert eps[0] == s.primary;
    assert forall j :: 0 <= j < |eps| ==> eps[j] in eps && holders[j].endpoint == eps[j];
    forall ep | ep in eps ensures exists j :: 0 <= j < |holders| && holders[j].endpoint == ep {
      var j :| 0 <= j < |eps| && eps[j] == ep;
      assert holders[j].endpoint == ep;
    }
  }

  lemma RoutedNodesCarry(nodes: seq<Node>, shards: seq<ShardStatus>, conns: Conns)
    requires Routes(nodes, Windows(shards), conns) && CacheOk(conns)
    ensures Carries(nodes, shards)
  {
    hide NodeFor, Holders, Handles, Windows;
    var windows := Windows(shards);
    forall k | 0 <= k < |windows| ensures NodeFor(nodes[k], windows[k]) { RoutedNodeIsFor(windows[k], conns); }
    forall i | 0 <= i < |shards| && shards[i].window != 0 ensures exists n :: n in nodes && NodeFor(n, shards[i]) {
      WindowsAre(shards, shards[i]);
      var k :| 0 <= k < |windows| && windows[k] == shards[i];
      assert nodes[k] in nodes;
    }
    forall n | n in nodes ensures exists i :: 0 <= i < |shards| && shards[i].window != 0 && NodeFor(n, shards[i]) {
      var k :| 0 <= k < |nodes| && nodes[k] == n;
      WindowsAre(shards, windows[k]);
      var i :| 0 <= i < |shards| && shards[i] == windows[k];
    }
  }

  /** What the resolution asks of the windows, said of the entries. */
  lemma AnswerIs(shards: seq<ShardStatus>)
    ensures Windows(shards) != [] <==> exists i :: 0 <= i < |shards| && shards[i].window != 0
    ensures (forall s :: s in Windows(shards) ==> s.primary != "")
            <==> forall i :: 0 <= i < |shards| && shards[i].window != 0 ==> shards[i].primary != ""
    ensures forall ep :: ep in Referenced(Windows(shards)) <==> exists i :: 0 <= i < |shards| && Refers(shards[i], ep)
  {
    hide Windows, Holders, Assigned;
    var windows := Windows(shards);
    forall s ensures s in windows <==> s in shards && s.window != 0 { WindowsAre(shards, s); }
    if windows != [] { assert windows[0] in windows; }
    forall ep ensures ep in Referenced(windows) <==> exists i :: 0 <= i < |shards| && Refers(shards[i], ep) {
      forall s ensures ep in Holders(s) <==> ep == s.primary || (ep in s.replicas && ep != "") {
        HoldersOf(s);
      }
      if i :| 0 <= i < |shards| && Refers(shards[i], ep) { assert shards[i] in windows; }
      if ep in Referenced(windows) {
        var s :| s in windows && ep in Holders(s);
        var i :| 0 <= i < |shards| && shards[i] == s;
        assert Refers(shards[i], ep);
      }
    }
  }

  /** The answer has a windowing this code knows and a window; every window has its primary, and every endpoint can be reached. */
  ghost predicate Resolvable(resp: Response, reach: set<Endpoint>) {
    && resp.windowing.Some? && resp.windowing.value.granularity in {"hourly", "daily", "weekly"}
    && (exists i :: 0 <= i < |resp.shards| && resp.shards[i].window != 0)
    && (forall i :: 0 <= i < |resp.shards| && resp.shards[i].window != 0 ==> resp.shards[i].primary != "")
    && (forall i, ep :: 0 <= i < |resp.shards| && Refers(resp.shards[i], ep) ==> ep in reach)
  }

  lemma AnswerReached(resp: Response, reach: set<Endpoint>)
    ensures Resolvable(resp, reach)
            <==> && resp.windowing.Some? && KnownGranularity(resp.windowing.value.granularity)
                 && Windows(resp.shards) != [] && (forall s :: s in Windows(resp.shards) ==> s.primary != "")
                 && Referenced(Windows(resp.shards)) <= reach
  {
    hide Windows, Referenced, Refers;
    var shards := resp.shards;
    AnswerIs(shards);
    assert Referenced(Windows(shards)) <= reach <==> forall i, ep :: 0 <= i < |shards| && Refers(shards[i], ep) ==> ep in reach by {
      if Referenced(Windows(shards)) <= reach {
        forall i, ep | 0 <= i < |shards| && Refers(shards[i], ep) ensures ep in reach {
          assert ep in Referenced(Windows(shards));
        }
      }
    }
  }

  lemma HoldersOf(s: ShardStatus)
    ensures forall ep :: ep in Holders(s) <==> ep == s.primary || (ep in s.replicas && ep != "")
  {
    HoldersAre([s.primary], s.replicas);
    AssignedAre(s.replicas);
  }

  lemma ReferencedWith(windows: seq<ShardStatus>, s: ShardStatus)
    ensures Referenced(windows + [s]) == Referenced(windows) + set ep | ep in Holders(s)
  {
    hide Holders;
    forall ep ensures ep in Referenced(windows + [s]) <==> ep in Referenced(windows) || ep in Holders(s) {
      if ep in Referenced(windows) {
        var t :| t in windows && ep in Holders(t);
        assert t in windows + [s];
      }
      if ep in Holders(s) { assert s in windows + [s]; }
    }
  }

  lemma NothingRouted(conns: Conns)
    ensures Referenced([]) == {} && Routes([], [], conns)
  {
  }

  lemma ReferencedPart(windows: seq<ShardStatus>, n: nat)
    requires n <= |windows|
    ensures Referenced(windows[..n]) <= Referenced(windows)
  {
    hide Holders;
    forall ep | ep in Referenced(windows[..n]) ensures ep in Referenced(windows) {
      var s :| s in windows[..n] && ep in Holders(s);
      assert s in windows;
    }
  }

  lemma RoutesWith(nodes: seq<Node>, windows: seq<ShardStatus>, s: ShardStatus, conns: Conns)
    requires Routes(nodes, windows, conns) && forall ep :: ep in Holders(s) ==> ep in conns
    ensures Routes(nodes + [Node(s.window, Handles(conns, Holders(s)), s.bounds, s.cold)], windows + [s], conns)
  {
    hide Holders, Handles;
  }

  /** Dropping connections nothing refers to leaves every route as it was. */
  lemma RoutesPruned(nodes: seq<Node>, windows: seq<ShardStatus>, conns: Conns, kept: Conns)
    requires Routes(nodes, windows, conns) && kept.Keys == Referenced(windows) && Extends(kept, conns)
    ensures Routes(nodes, windows, kept)
  {
    hide Holders, Handles;
    forall i | 0 <= i < |windows|
      ensures forall ep :: ep in Holders(windows[i]) ==> ep in kept
      ensures Handles(kept, Holders(windows[i])) == Handles(conns, Holders(windows[i]))
    {
      assert windows[i] in windows;
      HandlesStand(kept, conns, Holders(windows[i]));
    }
  }
}
