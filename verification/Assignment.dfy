/**
 The assignment loop of a pool node: apply each pushed snapshot by unloading
 the windows it takes away, then serving the ones it gives.
 */
module Assignment {
  import opened Wrappers

  datatype Unit = Unit(index: string, window: int)

  /** One entry of a pushed snapshot; `window` is absent for a hash ordinal or a malformed entry. */
  datatype Entry = Entry(index: string, window: Option<int>)

  /** Indexes this node runs a windowed writer for, and indexes it holds replica metadata for. */
  datatype Config = Config(writers: set<string>, meta: set<string>)

  /**
   `seen`: windows of the last applied snapshot. `last`: its entries, forgotten
   on reconnect. `served`: windows in the read maps. `written`: those among them
   the write path opened. `ever`: windows any snapshot has assigned.
   */
  datatype Node = Node(seen: set<Unit>, last: seq<Entry>, served: set<Unit>, written: set<Unit>, ever: set<Unit>)

  function Windows(units: seq<Entry>): set<Unit> {
    set i | 0 <= i < |units| && units[i].window.Some? :: Unit(units[i].index, units[i].window.value)
  }

  /** An entry of the snapshot names the window. */
  predicate Names(units: seq<Entry>, u: Unit) {
    Entry(u.index, Some(u.window)) in units
  }

  lemma WindowsAre(units: seq<Entry>)
    ensures forall u :: u in Windows(units) <==> Names(units, u)
    ensures forall i :: 0 <= i < |units| && units[i].window.Some? ==> Unit(units[i].index, units[i].window.value) in Windows(units)
  {
    forall u | Names(units, u) ensures u in Windows(units) {
      var i :| 0 <= i < |units| && units[i] == Entry(u.index, Some(u.window));
    }
  }

  function Gone(c: Config, before: set<Unit>, current: set<Unit>): set<Unit> {
    set u | u in before && u !in current && u.index in c.writers
  }

  /** What a snapshot unloads: windows the previous one assigned and it does not, where a writer can unload them. */
  function Unloaded(c: Config, n: Node, units: seq<Entry>): set<Unit> {
    Gone(c, n.seen, Windows(units))
  }

  /** Windows among `units` that this node can serve and whose cold copy opened. */
  function Serveable(c: Config, units: seq<Entry>, openable: set<Unit>): set<Unit> {
    set u | u in Windows(units) && u.index in c.meta && u in openable
  }

  datatype Event =
    | Snapshot(units: seq<Entry>, openable: set<Unit>)
    | Retry(openable: set<Unit>)
    | Reconnect
    | WritePathOpens(unit: Unit)

  function Next(c: Config, n: Node, e: Event): Node {
    match e
    case Snapshot(units, openable) =>
      var gone := Unloaded(c, n, units);
      Node(Windows(units), units, n.served - gone + Serveable(c, units, openable), n.written - gone, n.ever + Windows(units))
    case Retry(openable) => n.(served := n.served + Serveable(c, n.last, openable))
    case Reconnect => n.(last := [])
    case WritePathOpens(u) => n.(served := n.served + {u}, written := n.written + {u})
  }

  function After(c: Config, n: Node, es: seq<Event>): Node
    decreases |es|
  {
    if es == [] then n else After(c, Next(c, n, es[0]), es[1..])
  }

  /**
   Every window that was ever assigned and is still served is in the last
   snapshot, unless the write path opened it or its index has no writer here.
   */
  ghost predicate Ok(c: Config, n: Node) {
    && n.seen <= n.ever && Windows(n.last) <= n.seen
    && forall u :: u in n.served && u in n.ever ==> u in n.seen || u in n.written || u.index !in c.writers
  }

  lemma NextKeepsOk(c: Config, n: Node, e: Event)
    requires Ok(c, n)
    ensures Ok(c, Next(c, n, e))
  {
    assert Windows([]) == {};
  }

  lemma {:induction false} RunKeepsOk(c: Config, n: Node, es: seq<Event>)
    requires Ok(c, n)
    ensures Ok(c, After(c, n, es))
    decreases |es|
  {
    if es != [] {
      NextKeepsOk(c, n, es[0]);
      RunKeepsOk(c, Next(c, n, es[0]), es[1..]);
    }
  }

  /** A node at boot: windows found on disk are served, nothing was assigned yet. */
  function Boot(served: set<Unit>): Node {
    Node({}, [], served, {}, {})
  }

  /**
   After any sequence of snapshots, retries, reconnects and write-path opens, a
   further snapshot unloads only windows an earlier snapshot assigned, none of
   its own, and afterwards every assigned window still served is one of its own,
   was opened by the write path, or belongs to an index without a writer here.
   */
  lemma SnapshotUnloadsExactlyDeassigned(c: Config, boot: set<Unit>, es: seq<Event>, units: seq<Entry>, openable: set<Unit>)
    ensures var n := After(c, Boot(boot), es);
            var n' := Next(c, n, Snapshot(units, openable));
            && (forall u :: u in n.served && u !in n'.served ==> u in n.ever && u !in Windows(units))
            && (forall u :: u in n'.served && u in n'.ever ==>
                  u in Windows(units) || u in n'.written || u.index !in c.writers)
            && (forall u :: u in n.served && u in Windows(units) ==> u in n'.served)
  {
    assert Windows([]) == {};
    RunKeepsOk(c, Boot(boot), es);
    NextKeepsOk(c, After(c, Boot(boot), es), Snapshot(units, openable));
  }

  /**
   After any such sequence, a snapshot, or a retry with no reconnect since, leaves
   served every window the last snapshot names that this node holds metadata for
   and can open; it adds no other.
   */
  lemma AssignedIsServed(c: Config, boot: set<Unit>, es: seq<Event>, units: seq<Entry>, openable: set<Unit>, u: Unit)
    ensures var n := After(c, Boot(boot), es);
            var applied := Next(c, n, Snapshot(units, openable));
            && (Names(units, u) && u.index in c.meta && u in openable ==> u in applied.served)
            && (u in applied.served && u !in n.served ==> Names(units, u) && u.index in c.meta && u in openable)
            && (forall later :: Names(units, u) && u.index in c.meta && u in later ==> u in Next(c, applied, Retry(later)).served)
            && (forall later :: Next(c, Next(c, applied, Reconnect), Retry(later)).served == applied.served)
  {
    WindowsAre(units);
    WindowsAre([]);
  }

  /** A boot window no snapshot ever names is served through the whole run. */
  lemma {:induction false} UnassignedBootWindowStays(c: Config, n: Node, es: seq<Event>, u: Unit)
    requires Ok(c, n) && u in n.served && u !in After(c, n, es).ever
    ensures u in After(c, n, es).served && u !in n.ever
    decreases |es|
  {
    if es != [] {
      NextKeepsOk(c, n, es[0]);
      EverGrows(c, Next(c, n, es[0]), es[1..], u);
      UnassignedBootWindowStays(c, Next(c, n, es[0]), es[1..], u);
    }
  }

  /** Windows once assigned stay on record. */
  lemma {:induction false} EverGrows(c: Config, n: Node, es: seq<Event>, u: Unit)
    requires u !in After(c, n, es).ever
    ensures u !in n.ever
    decreases |es|
  {
    if es != [] { EverGrows(c, Next(c, n, es[0]), es[1..], u); }
  }

  // ------------------------------------------------------------- the loop itself

  class AssignmentLoop {
    const config: Config
    var seen: set<Unit>
    var last: seq<Entry>
    var served: set<Unit>
    ghost var written: set<Unit>
    ghost var ever: set<Unit>

    ghost function View(): Node
      reads this
    {
      Node(seen, last, served, written, ever)
    }

    constructor (config: Config, boot: set<Unit>)
      ensures this.config == config && View() == Boot(boot)
    {
      this.config, seen, last, served, written, ever := config, {}, [], boot, {}, {};
    }

    method UnloadUnit(u: Unit)
      modifies this`served, this`written
      ensures served == old(served) - (if u.index in config.writers then {u} else {})
      ensures written == old(written) - (if u.index in config.writers then {u} else {})
    {
      if u.index in config.writers {
        served, written := served - {u}, written - {u};
      }
    }

    /** Serve the entries not yet served whose cold copy can be opened. */
    method ServeAssigned(units: seq<Entry>, openable: set<Unit>)
      modifies this`served
      ensures served == old(served) + Serveable(config, units, openable)
    {
      for i := 0 to |units|
        invariant served == old(served) + Serveable(config, units[..i], openable)
      {
        assert units[..i + 1] == units[..i] + [units[i]];
        assert Windows(units[..i + 1]) == Windows(units[..i])
                 + if units[i].window.Some? then {Unit(units[i].index, units[i].window.value)} else {} by {
          forall j | 0 <= j < i ensures units[..i + 1][j] == units[..i][j] {}
        }
        if units[i].window.Some? {
          var u := Unit(units[i].index, units[i].window.value);
          if u.index in config.meta && u !in served && u in openable {
            served := served + {u};
          }
        }
      }
      assert units[..|units|] == units;
    }

    method CurrentWindows(units: seq<Entry>) returns (current: set<Unit>)
      ensures current == Windows(units)
    {
      current := {};
      for i := 0 to |units|
        invariant current == set j | 0 <= j < i && units[j].window.Some? :: Unit(units[j].index, units[j].window.value)
      {
        if units[i].window.Some? {
          current := current + {Unit(units[i].index, units[i].window.value)};
        }
      }
    }

    lemma GoneWith(done: set<Unit>, u: Unit, current: set<Unit>)
      ensures Gone(config, done + {u}, current)
              == Gone(config, done, current) + if u !in current && u.index in config.writers then {u} else {}
    {
    }

    /** Unload what the previous snapshot assigned and `current` does not. */
    method UnloadDeassigned(current: set<Unit>)
      modifies this`served, this`written
      ensures served == old(served) - Gone(config, seen, current) && written == old(written) - Gone(config, seen, current)
    {
      hide Gone;
      var left := seen;
      ghost var done, gone: set<Unit> := {}, {};
      assert Gone(config, {}, current) == {} by { NothingGone(current); }
      while left != {}
        invariant done + left == seen
        invariant gone == Gone(config, done, current)
        invariant served == old(served) - gone && written == old(written) - gone
        decreases |left|
      {
        var u :| u in left;
        left := left - {u};
        GoneWith(done, u, current);
        if u !in current {
          UnloadUnit(u);
        }
        gone, done := gone + if u !in current && u.index in config.writers then {u} else {}, done + {u};
      }
      assert done == seen;
    }

    lemma NothingGone(current: set<Unit>)
      ensures Gone(config, {}, current) == {}
    {
    }

    /**
     Unload, remember, serve. Afterwards every assigned window this node holds
     metadata for and can open is served, and a window the previous snapshot
     assigned and this one does not is served only if no writer here can unload it.
     */
    method ApplySnapshot(units: seq<Entry>, openable: set<Unit>)
      modifies this
      ensures View() == Next(config, old(View()), Snapshot(units, openable))
      ensures forall i :: 0 <= i < |units| && units[i].window.Some? ==>
                var u := Unit(units[i].index, units[i].window.value);
                u in seen && (u.index in config.meta && u in openable ==> u in served) && (u in old(served) ==> u in served)
      ensures forall u :: u in served && u !in old(served) ==> u in openable && u.index in config.meta && Names(units, u)
      ensures forall u :: u in old(seen) && !Names(units, u) && u.index in config.writers ==> u !in served
      ensures forall u :: u in old(served) && u !in served ==> u in old(seen) && !Names(units, u) && u.index in config.writers
      ensures last == units
    {
      WindowsAre(units);
      hide Windows, Names;
      var current := CurrentWindows(units);
      UnloadDeassigned(current);
      seen, ever := current, ever + current;
      ServeAssigned(units, openable);
      last := units;
    }

    method RetryTick(openable: set<Unit>)
      modifies this`served
      ensures View() == Next(config, old(View()), Retry(openable))
      ensures forall i :: 0 <= i < |last| && last[i].window.Some? ==>
                var u := Unit(last[i].index, last[i].window.value); u.index in config.meta && u in openable ==> u in served
      ensures old(served) <= served && forall u :: u in served && u !in old(served) ==> u in openable && u.index in config.meta && Names(last, u)
    {
      WindowsAre(last);
      assert Windows([]) == {};
      if last != [] {
        ServeAssigned(last, openable);
      }
    }
  }
}
