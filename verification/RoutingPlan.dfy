/** The gateway's routing plan for an index sharded by ordinal, from the control plane's answer. */
module RoutingPlan {
  import opened Wrappers
  import opened LittleEndian
  import opened Sorting

  type u32 = x: int | 0 <= x < 0x1_0000_0000

  type Endpoint = string

  /** One placement entry; an empty primary is not assigned yet, window 0 is an ordinal shard. */
  datatype ShardStatus = ShardStatus(ordinal: u32, window: i64, primary: Endpoint, replicas: seq<Endpoint>,
                                     bounds: Option<(i64, i64)>, cold: bool)

  datatype WindowConfig = WindowConfig(field: string, granularity: string)

  datatype Response = Response(shards: seq<ShardStatus>, shardCount: u32, windowing: Option<WindowConfig>,
                               routing: int, bucketOwners: seq<u32>)

  datatype Strategy = Hash | Partition

  datatype Plan = Plan(endpoints: seq<Endpoint>, strategy: Strategy, buckets: seq<u32>)

  datatype PlanError = Windowed | CountMismatch(reported: u32, entries: nat) | NotContiguous(ordinal: u32, at: nat) | NoPrimary(ordinal: u32)

  predicate HasWindow(shards: seq<ShardStatus>) {
    exists i :: 0 <= i < |shards| && shards[i].window != 0
  }

  predicate IsWindowed(resp: Response) {
    resp.windowing.Some? || HasWindow(resp.shards)
  }

  function ByOrdinal(): (ShardStatus, ShardStatus) -> bool {
    (a: ShardStatus, b: ShardStatus) => a.ordinal <= b.ordinal
  }

  function Ordinals(shards: seq<ShardStatus>): (r: seq<int>)
    ensures |r| == |shards| && forall i :: 0 <= i < |r| ==> r[i] == shards[i].ordinal
  {
    seq(|shards|, i requires 0 <= i < |shards| => shards[i].ordinal)
  }

  function UpTo(n: nat): (r: seq<int>)
    ensures |r| == n && forall i :: 0 <= i < n ==> r[i] == i
  {
    seq(n, i => i)
  }

  /** The ordinals are 0 to the number of entries, each exactly once, in any order. */
  ghost predicate Contiguous(shards: seq<ShardStatus>) {
    multiset(Ordinals(shards)) == multiset(UpTo(|shards|))
  }

  ghost predicate AllPlaced(shards: seq<ShardStatus>) {
    forall s :: s in shards ==> s.primary != ""
  }

  // ------------------------------------------------------------ sorting by ordinal

  lemma {:induction false} InsertOrdinal(s: ShardStatus, xs: seq<ShardStatus>)
    ensures multiset(Ordinals(Insert(ByOrdinal(), s, xs))) == multiset{s.ordinal as int} + multiset(Ordinals(xs))
  {
    if xs == [] || s.ordinal <= xs[0].ordinal {
      assert Ordinals([s] + xs) == [s.ordinal as int] + Ordinals(xs);
    } else {
      var rest := Insert(ByOrdinal(), s, xs[1..]);
      InsertOrdinal(s, xs[1..]);
      assert Ordinals([xs[0]] + rest) == [xs[0].ordinal as int] + Ordinals(rest);
      assert Ordinals(xs) == [xs[0].ordinal as int] + Ordinals(xs[1..]);
    }
  }

  lemma {:induction false} SortKeepsOrdinals(xs: seq<ShardStatus>)
    ensures multiset(Ordinals(Sort(ByOrdinal(), xs))) == multiset(Ordinals(xs))
  {
    if xs != [] {
      SortKeepsOrdinals(xs[1..]);
      InsertOrdinal(xs[0], Sort(ByOrdinal(), xs[1..]));
      assert Ordinals(xs) == [xs[0].ordinal as int] + Ordinals(xs[1..]);
    }
  }

  predicate IntLe(a: int, b: int) {
    a <= b
  }

  /** A sorted list of integers counts up from 0 exactly when it is a rearrangement of 0, 1, 2, ... */
  lemma CountsUpIff(a: seq<int>)
    requires Sorted(IntLe, a)
    ensures a == UpTo(|a|) <==> multiset(a) == multiset(UpTo(|a|))
  {
    var b := UpTo(|a|);
    if multiset(a) == multiset(b) {
      SortedIsUnique(IntLe, a, b, set x | x in a + b);
    }
  }

  /** What sorting gives: the same entries, and entry `i` has ordinal `i` throughout exactly when the ordinals are contiguous. */
  lemma SortedByOrdinal(shards: seq<ShardStatus>)
    ensures var t := Sort(ByOrdinal(), shards);
            && |t| == |shards| && multiset(t) == multiset(shards)
            && ((forall i :: 0 <= i < |t| ==> t[i].ordinal == i) <==> Contiguous(shards))
  {
    hide Sort, UpTo;
    var t := Sort(ByOrdinal(), shards);
    SortIsSorted(ByOrdinal(), shards, set x | x in shards);
    assert |multiset(t)| == |multiset(shards)|;
    SortKeepsOrdinals(shards);
    CountsUpIff(Ordinals(t));
    if forall i :: 0 <= i < |t| ==> t[i].ordinal == i {
      assert Ordinals(t) == UpTo(|t|);
    }
  }

  lemma SameEntries(a: seq<ShardStatus>, b: seq<ShardStatus>, s: ShardStatus)
    requires multiset(a) == multiset(b) && s in a
    ensures s in b
  {
    assert s in multiset(a);
  }

  // ---------------------------------------------------------------- the planner

  ghost predicate Serves(shards: seq<ShardStatus>, o: int, endpoint: Endpoint) {
    exists s :: s in shards && s.ordinal == o && s.primary == endpoint
  }

  /** Endpoint `o` is the primary of the shard whose ordinal is `o`. */
  ghost predicate RoutesByOrdinal(endpoints: seq<Endpoint>, shards: seq<ShardStatus>) {
    && |endpoints| == |shards|
    && (forall s :: s in shards ==> s.ordinal < |endpoints| && endpoints[s.ordinal] == s.primary)
    && (forall o :: 0 <= o < |endpoints| ==> Serves(shards, o, endpoints[o]))
  }

  predicate HasOrdinal(shards: seq<ShardStatus>, o: int) {
    exists i :: 0 <= i < |shards| && shards[i].ordinal == o
  }

  /** Every ordinal below `n` has an entry with a primary: what is reported is the first thing wrong. */
  ghost predicate PlacedBelow(shards: seq<ShardStatus>, n: int) {
    forall o :: 0 <= o < n ==> Placed(shards, o)
  }

  ghost predicate Placed(shards: seq<ShardStatus>, o: int) {
    exists i :: 0 <= i < |shards| && shards[i].ordinal == o && shards[i].primary != ""
  }

  lemma PlacedSoFar(shards: seq<ShardStatus>, t: seq<ShardStatus>, n: nat)
    requires multiset(t) == multiset(shards) && n <= |t| && forall i :: 0 <= i < n ==> t[i].ordinal == i && t[i].primary != ""
    ensures PlacedBelow(shards, n)
  {
    forall o | 0 <= o < n ensures Placed(shards, o) {
      SameEntries(t, shards, t[o]);
      var i :| 0 <= i < |shards| && shards[i] == t[o];
    }
  }

  /**
   Plan the routing. It succeeds exactly when nothing is windowed, the reported
   count is the number of entries in 32 bits, their ordinals are contiguous and
   every primary is assigned; the errors are reported in that order.
   */
  method MakePlan(resp: Response) returns (r: Result<Plan, PlanError>)
    ensures r.Success? <==> && !IsWindowed(resp) && resp.shardCount == |resp.shards| % TWO_32
                            && Contiguous(resp.shards) && AllPlaced(resp.shards)
    ensures r.Success? ==> && RoutesByOrdinal(r.value.endpoints, resp.shards)
                           && (r.value.strategy == Partition <==> resp.routing == 1) && r.value.buckets == resp.bucketOwners
    ensures r == Failure(Windowed)
            <==> resp.windowing.Some? || exists i :: 0 <= i < |resp.shards| && resp.shards[i].window != 0
    ensures r.Failure? && r.error.CountMismatch? <==> !IsWindowed(resp) && resp.shardCount != |resp.shards| % TWO_32
    ensures r.Failure? && r.error.CountMismatch? ==> r.error == CountMismatch(resp.shardCount, |resp.shards|)
    ensures r.Failure? && r.error.NotContiguous? ==>
              && !Contiguous(resp.shards) && r.error.ordinal != r.error.at && HasOrdinal(resp.shards, r.error.ordinal)
              && PlacedBelow(resp.shards, r.error.at)
    ensures r.Failure? && r.error.NoPrimary? ==>
              && (exists i :: 0 <= i < |resp.shards| && resp.shards[i].ordinal == r.error.ordinal && resp.shards[i].primary == "")
              && PlacedBelow(resp.shards, r.error.ordinal)
  {
    if HasWindow(resp.shards) {
      return Failure(Windowed);
    }
    if resp.windowing.Some? {
      return Failure(Windowed);
    }
    var shards := Sort(ByOrdinal(), resp.shards);
    SortedByOrdinal(resp.shards);
    if |shards| % TWO_32 != resp.shardCount {
      return Failure(CountMismatch(resp.shardCount, |shards|));
    }
    var endpoints: seq<Endpoint> := [];
    for pos := 0 to |shards|
      invariant |endpoints| == pos
      invariant forall i :: 0 <= i < pos ==> shards[i].ordinal == i && shards[i].primary != "" && endpoints[i] == shards[i].primary
    {
      PlacedSoFar(resp.shards, shards, pos);
      SameEntries(shards, resp.shards, shards[pos]);
      if shards[pos].ordinal != pos {
        return Failure(NotContiguous(shards[pos].ordinal, pos));
      }
      if shards[pos].primary == "" {
        return Failure(NoPrimary(shards[pos].ordinal));
      }
      endpoints := endpoints + [shards[pos].primary];
    }
    PlannedRoutes(resp.shards, shards, endpoints);
    var strategy := if resp.routing == 1 then Partition else Hash;
    r := Success(Plan(endpoints, strategy, resp.bucketOwners));
  }

  lemma PlannedRoutes(shards: seq<ShardStatus>, t: seq<ShardStatus>, endpoints: seq<Endpoint>)
    requires multiset(t) == multiset(shards) && |t| == |shards| == |endpoints|
    requires forall i :: 0 <= i < |t| ==> t[i].ordinal == i && t[i].primary != "" && endpoints[i] == t[i].primary
    ensures RoutesByOrdinal(endpoints, shards) && AllPlaced(shards)
  {
    forall s | s in shards ensures s.ordinal < |endpoints| && endpoints[s.ordinal] == s.primary && s.primary != "" {
      SameEntries(shards, t, s);
      var k :| 0 <= k < |t| && t[k] == s;
    }
    forall o | 0 <= o < |endpoints| ensures Serves(shards, o, endpoints[o]) {
      SameEntries(t, shards, t[o]);
    }
  }

  /** Neither whether a plan can be made nor its endpoints depend on the order in which the entries were listed. */
  lemma PlanIgnoresListing(a: seq<ShardStatus>, b: seq<ShardStatus>)
    requires multiset(a) == multiset(b)
    ensures (HasWindow(a) <==> HasWindow(b)) && |a| == |b|
    ensures (Contiguous(a) <==> Contiguous(b)) && (AllPlaced(a) <==> AllPlaced(b))
    ensures forall x, y :: RoutesByOrdinal(x, a) && RoutesByOrdinal(y, b) ==> x == y
  {
    assert |multiset(a)| == |multiset(b)|;
    SameOrdinals(a, b);
    forall s ensures s in a <==> s in b { assert s in a <==> s in multiset(a); }
    if i :| 0 <= i < |a| && a[i].window != 0 { assert a[i] in b; }
    if i :| 0 <= i < |b| && b[i].window != 0 { assert b[i] in a; }
    forall x, y | RoutesByOrdinal(x, a) && RoutesByOrdinal(y, b) ensures x == y {
      SameEndpoints(a, b, x, y);
    }
  }

  lemma SameOrdinals(a: seq<ShardStatus>, b: seq<ShardStatus>)
    requires multiset(a) == multiset(b)
    ensures multiset(Ordinals(a)) == multiset(Ordinals(b))
  {
    var same, ordinal := (s: ShardStatus) => s, (s: ShardStatus) => s.ordinal as int;
    assert Map(same, a) == a && Map(same, b) == b;
    MapsAgree(same, ordinal, a, b);
    assert Map(ordinal, a) == Ordinals(a) && Map(ordinal, b) == Ordinals(b);
  }

  lemma SameEndpoints(a: seq<ShardStatus>, b: seq<ShardStatus>, x: seq<Endpoint>, y: seq<Endpoint>)
    requires multiset(a) == multiset(b) && RoutesByOrdinal(x, a) && RoutesByOrdinal(y, b)
    ensures x == y
  {
    assert |multiset(a)| == |multiset(b)|;
    forall o | 0 <= o < |x| ensures x[o] == y[o] {
      assert Serves(a, o, x[o]);
      var s :| s in a && s.ordinal == o && s.primary == x[o];
      SameEntries(a, b, s);
    }
  }
}
