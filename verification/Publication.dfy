/**
 Publishing one hash ordinal on a pool node: freshly built primaries and cold
 replicas put their services into the same four read maps, one map at a time,
 under one lock each. Any number of such jobs interleave.
 */
module Publication {
  import opened Wrappers

  datatype Slot = Absent | Replica | Primary

  function Rank(s: Slot): nat {
    match s
    case Absent => 0
    case Replica => 1
    case Primary => 2
  }

  const MAPS: nat := 4

  /** A build-on-assignment job, or a replica open, between two of its steps. */
  datatype Job =
    | Deciding
    | Building
    | Publishing(next: nat)
    | Releasing(ok: bool)
    | Opening
    | Inserting(next: nat)
    | Finished

  /** `maps[0]` is the search map; `building` is the in-flight guard with the job that took it; `published`: a primary publication has completed. */
  datatype Node = Node(maps: seq<Slot>, jobs: map<nat, Job>, building: Option<nat>, published: bool)

  datatype Event =
    | StartBuild(id: nat)
    | TakeGuard(id: nat)
    | FinishBuild(id: nat, ok: bool)
    | PublishNext(id: nat)
    | Release(id: nat)
    | StartReplica(id: nat)
    | OpenReplica(id: nat, ok: bool)
    | InsertNext(id: nat)

  function At(n: Node, id: nat): Job {
    if id in n.jobs then n.jobs[id] else Finished
  }

  function With(n: Node, id: nat, t: Job): Node {
    n.(jobs := n.jobs[id := t])
  }

  function Next(n: Node, e: Event): (r: Node)
    requires |n.maps| == MAPS
    ensures |r.maps| == MAPS
  {
    match e
    case StartBuild(id) =>
      if id in n.jobs || n.maps[0].Primary? then n else With(n, id, Deciding)
    case TakeGuard(id) =>
      if !At(n, id).Deciding? then n
      else if n.building.Some? then With(n, id, Finished)
      else With(n, id, Building).(building := Some(id))
    case FinishBuild(id, ok) =>
      if !At(n, id).Building? then n
      else With(n, id, if ok then Publishing(0) else Releasing(false))
    case PublishNext(id) =>
      var t := At(n, id);
      if !t.Publishing? then n
      else if t.next < MAPS then With(n, id, Publishing(t.next + 1)).(maps := n.maps[t.next := Primary])
      else With(n, id, Releasing(true)).(published := true)
    case Release(id) =>
      if !At(n, id).Releasing? then n else With(n, id, Finished).(building := None)
    case StartReplica(id) =>
      if id in n.jobs || !n.maps[0].Absent? then n else With(n, id, Opening)
    case OpenReplica(id, ok) =>
      if !At(n, id).Opening? then n else With(n, id, if ok then Inserting(0) else Finished)
    case InsertNext(id) =>
      var t := At(n, id);
      if !t.Inserting? then n
      else if t.next >= MAPS then With(n, id, Finished)
      else if n.maps[t.next].Absent? then With(n, id, Inserting(t.next + 1)).(maps := n.maps[t.next := Replica])
      else if t.next == 0 then With(n, id, Finished)
      else With(n, id, Inserting(t.next + 1))
  }

  function After(n: Node, es: seq<Event>): (r: Node)
    requires |n.maps| == MAPS
    ensures |r.maps| == MAPS
    decreases |es|
  {
    if es == [] then n else After(Next(n, es[0]), es[1..])
  }

  /** The job holds the in-flight guard. */
  predicate InFlight(t: Job) {
    t.Building? || t.Publishing? || t.Releasing?
  }

  ghost predicate Ok(n: Node) {
    && |n.maps| == MAPS
    && GuardOk(n)
    && (forall id :: id in n.jobs ==> PublishingOk(n, n.jobs[id]))
    && (n.published ==> forall m :: 0 <= m < MAPS ==> n.maps[m].Primary?)
  }

  /** Each map only climbs from absent to replica to primary. */
  ghost predicate Climbs(n: Node, n': Node) {
    |n.maps| == |n'.maps| == MAPS && forall m :: 0 <= m < MAPS ==> Rank(n.maps[m]) <= Rank(n'.maps[m])
  }

  lemma NextClimbs(n: Node, e: Event)
    requires |n.maps| == MAPS
    ensures Climbs(n, Next(n, e)) && (n.published ==> Next(n, e).published)
  {
  }

  /** The guard names exactly the job in flight. */
  ghost predicate GuardOk(n: Node) {
    && (forall id :: id in n.jobs ==> (InFlight(n.jobs[id]) <==> n.building == Some(id)))
    && (n.building.Some? ==> n.building.value in n.jobs)
  }

  lemma NextKeepsGuard(n: Node, e: Event)
    requires |n.maps| == MAPS && GuardOk(n)
    ensures GuardOk(Next(n, e))
  {
  }

  /** A job that is publishing has every map before its next one at primary. */
  ghost predicate PublishingOk(n: Node, t: Job)
    requires |n.maps| == MAPS
  {
    t.Publishing? ==> t.next <= MAPS && forall m :: 0 <= m < t.next ==> n.maps[m].Primary?
  }

  lemma NextKeepsPublishing(n: Node, e: Event, id: nat)
    requires |n.maps| == MAPS && id in Next(n, e).jobs && (id in n.jobs ==> PublishingOk(n, n.jobs[id]))
    ensures PublishingOk(Next(n, e), Next(n, e).jobs[id])
  {
    NextClimbs(n, e);
    if id in n.jobs && n.jobs[id].Publishing? {
      forall m | 0 <= m < n.jobs[id].next ensures Next(n, e).maps[m].Primary? {
        assert n.maps[m].Primary?;
      }
    }
  }

  lemma NextKeepsOk(n: Node, e: Event)
    requires Ok(n)
    ensures Ok(Next(n, e))
  {
    hide GuardOk;
    NextKeepsGuard(n, e);
    NextClimbs(n, e);
    forall id | id in Next(n, e).jobs ensures PublishingOk(Next(n, e), Next(n, e).jobs[id]) {
      NextKeepsPublishing(n, e, id);
    }
  }

  /**
   For every interleaving: each map moves only upwards, every map is at primary
   once any primary publication has completed and stays there, at most one build
   is in flight, and the guard is held exactly while one is.
   */
  lemma {:induction false} EveryInterleaving(n: Node, es: seq<Event>)
    requires Ok(n)
    ensures Ok(After(n, es)) && Climbs(n, After(n, es)) && (n.published ==> After(n, es).published)
    decreases |es|
  {
    if es != [] {
      var n1 := Next(n, es[0]);
      NextKeepsOk(n, es[0]);
      NextClimbs(n, es[0]);
      EveryInterleaving(n1, es[1..]);
      forall m | 0 <= m < MAPS ensures Rank(n.maps[m]) <= Rank(After(n, es).maps[m]) {
        assert Rank(n.maps[m]) <= Rank(n1.maps[m]) <= Rank(After(n1, es[1..]).maps[m]);
      }
    }
  }

  /** A node on which nothing has been published yet. */
  const EMPTY := Node([Absent, Absent, Absent, Absent], map[], None, false)

  /** From an empty node: a finished primary publication is never undone by a replica that was slow to open. */
  lemma PrimaryIsFinal(before: seq<Event>, after: seq<Event>, m: nat)
    requires m < MAPS && After(EMPTY, before).published
    ensures After(After(EMPTY, before), after).maps[m] == Primary
  {
    EveryInterleaving(EMPTY, before);
    EveryInterleaving(After(EMPTY, before), after);
  }

  /** Two jobs that both hold the guard are one job. */
  lemma OneBuildInFlight(es: seq<Event>, i: nat, j: nat)
    requires InFlight(At(After(EMPTY, es), i)) && InFlight(At(After(EMPTY, es), j))
    ensures i == j && After(EMPTY, es).building == Some(i)
  {
    EveryInterleaving(EMPTY, es);
  }

  /** A build that fails leaves the guard free, so a later snapshot can build again. */
  lemma FailedBuildFreesGuard(es: seq<Event>, id: nat)
    requires At(After(EMPTY, es), id).Building?
    ensures var n := After(EMPTY, es);
            var n' := Next(Next(n, FinishBuild(id, false)), Release(id));
            n.building == Some(id) && n'.building.None? && n'.maps == n.maps
            && forall other :: other in n'.jobs ==> !InFlight(n'.jobs[other])
  {
    EveryInterleaving(EMPTY, es);
    var n := After(EMPTY, es);
    NextKeepsOk(n, FinishBuild(id, false));
    NextKeepsOk(Next(n, FinishBuild(id, false)), Release(id));
  }

  // ---------------------------------------------------------------- what jobs achieve

  /** How many of the events are this job's publishing steps. */
  function Publishes(es: seq<Event>, id: nat): nat {
    if es == [] then 0 else (if es[0] == PublishNext(id) then 1 else 0) + Publishes(es[1..], id)
  }

  /** A job that is publishing needs one step a map and one to complete, whatever the other jobs do in between. */
  lemma {:induction false} PublishingCompletes(n: Node, es: seq<Event>, id: nat)
    requires Ok(n) && At(n, id).Publishing? && Publishes(es, id) > MAPS - At(n, id).next
    ensures After(n, es).published
    decreases |es|
  {
    hide GuardOk;
    var e, n1 := es[0], Next(n, es[0]);
    NextKeepsOk(n, e);
    if e == PublishNext(id) && At(n, id).next == MAPS {
      EveryInterleaving(n1, es[1..]);
    } else {
      PublishingCompletes(n1, es[1..], id);
    }
  }

  /** Where the ordinal is not served as primary and no build is in flight, a new job gets to build; where nothing serves it, a replica that opens gets to insert. */
  lemma JobsStart(n: Node, id: nat)
    requires Ok(n) && id !in n.jobs
    ensures !n.maps[0].Primary? && n.building.None? ==>
              var n' := Next(Next(n, StartBuild(id)), TakeGuard(id)); At(n', id).Building? && n'.building == Some(id)
    ensures n.maps[0].Primary? ==> Next(n, StartBuild(id)) == n
    ensures n.building.Some? ==> !InFlight(At(Next(Next(n, StartBuild(id)), TakeGuard(id)), id))
    ensures n.maps[0].Absent? ==> At(Next(Next(n, StartReplica(id)), OpenReplica(id, true)), id) == Inserting(0)
    ensures !n.maps[0].Absent? ==> Next(n, StartReplica(id)) == n
  {
  }

  /**
   A build that succeeds ends published: once its remaining steps have run, in any
   interleaving with other jobs, every map is at primary.
   */
  lemma SuccessfulBuildPublishes(es: seq<Event>, id: nat, more: seq<Event>, m: nat)
    requires At(After(EMPTY, es), id).Building? && Publishes(more, id) > MAPS && m < MAPS
    ensures var end := After(Next(After(EMPTY, es), FinishBuild(id, true)), more);
            end.published && end.maps[m] == Primary
  {
    EveryInterleaving(EMPTY, es);
    var n := After(EMPTY, es);
    var n1 := Next(n, FinishBuild(id, true));
    NextKeepsOk(n, FinishBuild(id, true));
    PublishingCompletes(n1, more, id);
    EveryInterleaving(n1, more);
  }

  /** How many of the events are this replica's insertions. */
  function Inserts(es: seq<Event>, id: nat): nat {
    if es == [] then 0 else (if es[0] == InsertNext(id) then 1 else 0) + Inserts(es[1..], id)
  }

  /** A replica that is past its first map fills, or finds filled, every map from where it stands. */
  lemma {:induction false} InsertingFills(n: Node, es: seq<Event>, id: nat, m: nat)
    requires Ok(n) && At(n, id).Inserting? && 0 < At(n, id).next <= m < MAPS && Inserts(es, id) > m - At(n, id).next
    ensures !After(n, es).maps[m].Absent?
    decreases |es|
  {
    hide GuardOk;
    var e, n1 := es[0], Next(n, es[0]);
    NextKeepsOk(n, e);
    if e == InsertNext(id) && At(n, id).next == m {
      EveryInterleaving(n1, es[1..]);
    } else {
      InsertingFills(n1, es[1..], id, m);
    }
  }

  /**
   A replica that opened and found the search map empty enters it at once, and once
   its remaining steps have run, in any interleaving, no map is left without the
   shard. One that found it taken leaves every map alone.
   */
  lemma OpenedReplicaServes(es: seq<Event>, id: nat, more: seq<Event>, m: nat)
    requires At(After(EMPTY, es), id) == Inserting(0) && Inserts(more, id) >= MAPS && m < MAPS
    ensures var n := After(EMPTY, es);
            var entered := Next(n, InsertNext(id));
            if n.maps[0].Absent? then entered.maps == n.maps[0 := Replica] && !After(entered, more).maps[m].Absent?
            else entered.maps == n.maps && At(entered, id).Finished?
  {
    EveryInterleaving(EMPTY, es);
    var n := After(EMPTY, es);
    var entered := Next(n, InsertNext(id));
    NextKeepsOk(n, InsertNext(id));
    if n.maps[0].Absent? {
      if m == 0 { EveryInterleaving(entered, more); } else { InsertingFills(entered, more, id, m); }
    }
  }
}
