/**
 Parking a window a node is serving, against the commits that go on meanwhile,
 pass after pass, and what a restart of the node then serves. Commits are
 numbered; the snapshot number of the aux store, which the hot and the cold
 shard share, is how many there have been.
 */
module LivePark {
  import opened Wrappers

  datatype Phase = Hot | BackedUp | Assembled | Opened | Swapped | Checked | Ended(parked: bool) | Reopened

  /**
   The copy that the marker in the window directory describes: one bundle or one
   object per file, with the segments of the first `segments` commits and index
   metadata that speaks of `metadata` of them. A bundle takes the metadata from
   the local directory after the backup, so it can be ahead of the segments.
   `torn`: some of its objects are gone or half replaced.
   */
  datatype Copy = Copy(bundled: bool, segments: nat, metadata: nat, torn: bool)

  /**
   `commits`: committed writes. `bulk`: the local index files are still there.
   `cold`: the handle points at the read-through shard. `taken`: the snapshot the
   pass's backup recorded. `marked`: the marker file.
   */
  datatype Window = Window(commits: nat, bulk: bool, cold: bool, taken: nat, marked: Option<Copy>, phase: Phase)

  datatype Event =
    | Commit                        // through the handle; a read-only shard refuses it
    | StrayCommit                   // by a writer that took the hot shard from the handle before the swap; it needs the local files
    | Backup(succeeds: bool, tears: bool)
    | Assemble(bundled: bool, reach: Reach, tears: bool)
    | Open(opens: bool)
    | Swap
    | Check(readable: bool)
    | Evict(succeeds: bool)
    | NextTick                      // the window is still hot and the next pass takes it up
    | Restart                       // between two passes; the marker alone decides how the window opens

  /** How far the store work after the backup gets before it fails, if it does. */
  datatype Reach = NotBuilt | Built | MarkerWritten | Published

  /** A backup replaces the objects of a per-file copy in place; one that fails may leave them half replaced. */
  function Rewritten(marked: Option<Copy>, commits: nat, succeeds: bool, tears: bool): Option<Copy> {
    if marked.None? || marked.value.bundled then marked
    else if succeeds then Some(Copy(false, commits, commits, false))
    else Some(marked.value.(torn := marked.value.torn || tears))
  }

  /** A new bundle replaces the old one, and per-file objects may be deleted for it. */
  function Rebuilt(marked: Option<Copy>, bundled: bool, taken: nat, commits: nat, tears: bool): Option<Copy> {
    if marked.None? || !bundled then marked
    else if marked.value.bundled then Some(Copy(true, taken, commits, false))
    else Some(marked.value.(torn := marked.value.torn || tears))
  }

  function Next(w: Window, e: Event): Window {
    match e
    case Commit => if w.cold then w else w.(commits := w.commits + 1)
    case StrayCommit => if w.bulk && !w.phase.Reopened? then w.(commits := w.commits + 1) else w
    case Backup(succeeds, tears) =>
      if !w.phase.Hot? then w
      else w.(taken := w.commits, marked := Rewritten(w.marked, w.commits, succeeds, tears),
              phase := if succeeds then BackedUp else Ended(false))
    case Assemble(bundled, reach, tears) =>
      if !w.phase.BackedUp? then w
      else if reach.NotBuilt? then w.(phase := Ended(false))
      else if reach.Built? then w.(marked := Rebuilt(w.marked, bundled, w.taken, w.commits, tears), phase := Ended(false))
      else w.(marked := Some(Copy(bundled, w.taken, if bundled then w.commits else w.taken, false)),
              phase := if reach.Published? then Assembled else Ended(false))
    case Open(opens) =>
      if w.phase.Assembled? then w.(phase := if opens then Opened else Ended(false)) else w
    case Swap => if w.phase.Opened? then w.(cold := true, phase := Swapped) else w
    case Check(readable) =>
      if !w.phase.Swapped? then w
      else if readable && w.commits == w.taken then w.(phase := Checked)
      else w.(cold := false, phase := Ended(false))
    case Evict(succeeds) =>
      if w.phase.Checked? then w.(bulk := w.bulk && !succeeds, phase := Ended(true)) else w
    case NextTick => if w.phase == Ended(false) then w.(phase := Hot) else w
    case Restart =>
      if !w.phase.Hot? && !w.phase.Ended? then w
      else if w.marked.Some? then w.(cold := true, phase := Reopened)
      else w.(cold := false, phase := Hot)
  }

  function After(w: Window, es: seq<Event>): Window
    decreases |es|
  {
    if es == [] then w else After(Next(w, es[0]), es[1..])
  }

  /** The cold copy opens to every committed write. */
  predicate ColdHolds(w: Window) {
    w.marked.Some? && !w.marked.value.torn && w.marked.value.metadata == w.marked.value.segments && w.commits <= w.marked.value.segments
  }

  /** The handle's shard serves every committed write. */
  predicate Serves(w: Window) {
    if w.cold then ColdHolds(w) else w.bulk
  }

  /** A hot window before a pass; earlier passes may have left a marker. */
  predicate Fresh(w: Window) {
    w.bulk && !w.cold && w.phase.Hot? && (w.marked.Some? ==> w.marked.value.segments <= w.commits)
  }

  /** The marker the pass has written. */
  predicate Described(w: Window) {
    w.marked.Some? && !w.marked.value.torn && w.marked.value.segments == w.taken <= w.marked.value.metadata <= w.commits
  }

  ghost predicate Ok(w: Window) {
    && (w.phase.Hot? || w.phase.BackedUp? || w.phase.Assembled? || w.phase.Opened? || w.phase == Ended(false) ==> !w.cold)
    && (w.phase.Swapped? || w.phase.Checked? || w.phase == Ended(true) || w.phase.Reopened? ==> w.cold)
    && (w.phase != Ended(true) && !w.phase.Reopened? ==> w.bulk)
    && (w.phase.BackedUp? ==> w.taken <= w.commits)
    && (w.phase.Assembled? || w.phase.Opened? || w.phase.Swapped? || w.phase.Checked? || w.phase == Ended(true) ==> Described(w))
    && (w.phase.Checked? || w.phase == Ended(true) ==> w.marked.value.metadata == w.taken)
    && (w.marked.Some? ==> w.marked.value.segments <= w.commits)
    && (w.phase.Reopened? ==> w.marked.Some?)
  }

  lemma {:induction false} RunKeepsOk(w: Window, es: seq<Event>)
    requires Ok(w)
    ensures Ok(After(w, es))
    decreases |es|
  {
    if es != [] {
      assert Ok(Next(w, es[0]));
      RunKeepsOk(Next(w, es[0]), es[1..]);
    }
  }

  /** No stray commit lands in the run. */
  predicate NoStray(es: seq<Event>) {
    forall i :: 0 <= i < |es| ==> !es[i].StrayCommit?
  }

  predicate NoRestart(es: seq<Event>) {
    forall i :: 0 <= i < |es| ==> !es[i].Restart?
  }

  /** Past the check the commits stand where the backup took them. */
  ghost predicate Frozen(w: Window) {
    w.phase.Checked? || w.phase == Ended(true) ==> w.commits == w.taken
  }

  lemma {:induction false} RunKeepsFrozen(w: Window, es: seq<Event>)
    requires Ok(w) && Frozen(w) && NoStray(es) && NoRestart(es) && !w.phase.Reopened?
    ensures Frozen(After(w, es)) && !After(w, es).phase.Reopened?
    decreases |es|
  {
    if es != [] {
      assert !es[0].StrayCommit? && !es[0].Restart?;
      assert Ok(Next(w, es[0])) && Frozen(Next(w, es[0]));
      assert forall i :: 0 <= i < |es[1..]| ==> es[1..][i] == es[i + 1];
      RunKeepsFrozen(Next(w, es[0]), es[1..]);
    }
  }

  /**
   Over every interleaving of commits with the steps of any number of passes: the
   local bulk is gone only if the cold copy holds every committed write, and
   whenever a pass is not between its swap and its check, so in particular when
   it ends, the handle's shard serves every committed write.
   */
  lemma ParkLosesNoCommit(w: Window, es: seq<Event>)
    requires Fresh(w) && NoStray(es) && NoRestart(es)
    ensures var end := After(w, es);
            && (!end.bulk ==> ColdHolds(end))
            && (!end.phase.Swapped? ==> Serves(end))
  {
    RunKeepsOk(w, es);
    RunKeepsFrozen(w, es);
  }

  /** A write that raced the backup always sends the pass back to the intact hot shard. */
  lemma RacedPassStaysHot(w: Window, es: seq<Event>, readable: bool)
    requires Fresh(w) && After(w, es).phase.Swapped? && After(w, es).commits != After(w, es).taken
    ensures var end := Next(After(w, es), Check(readable));
            end.phase == Ended(false) && !end.cold && end.bulk
  {
    RunKeepsOk(w, es);
  }

  /** The pass is past its check and has not gone back. */
  predicate Past(w: Window) {
    w.phase.Checked? || w.phase == Ended(true)
  }

  /** A stray commit lands after the check of the pass and before the local files are gone. */
  predicate StrayAfterCheck(w: Window, es: seq<Event>)
    decreases |es|
  {
    es != [] && ((es[0].StrayCommit? && Past(w) && w.bulk) || StrayAfterCheck(Next(w, es[0]), es[1..]))
  }

  lemma {:induction false} OnlyStraysFollow(w: Window, es: seq<Event>)
    requires Ok(w) && NoRestart(es)
    ensures Past(w) ==> Past(After(w, es))
    ensures Past(After(w, es)) ==>
              (After(w, es).commits != After(w, es).taken <==> (Past(w) && w.commits != w.taken) || StrayAfterCheck(w, es))
    decreases |es|
  {
    if es != [] {
      assert !es[0].Restart?;
      assert Ok(Next(w, es[0]));
      assert forall i :: 0 <= i < |es[1..]| ==> es[1..][i] == es[i + 1];
      OnlyStraysFollow(Next(w, es[0]), es[1..]);
    }
  }

  /**
   The check cannot see a writer that still holds the hot shard. A pass that
   ended serves every committed write if and only if it stayed hot or no stray
   commit landed between its check and its eviction.
   */
  lemma EndedPassServesIff(w: Window, es: seq<Event>)
    requires Fresh(w) && NoRestart(es) && After(w, es).phase.Ended?
    ensures Serves(After(w, es)) <==> !After(w, es).phase.parked || !StrayAfterCheck(w, es)
  {
    RunKeepsOk(w, es);
    OnlyStraysFollow(w, es);
  }

  /** The first step of a run, told apart from the rest. */
  lemma Then(w: Window, e: Event, es: seq<Event>)
    ensures After(w, [e] + es) == After(Next(w, e), es)
  {
    assert ([e] + es)[1..] == es;
  }

  const HOT := Window(1, true, false, 0, None, Hot)

  /** Such a writer exists in the code: committing between the check and the eviction, it is acknowledged and then served by nobody. */
  lemma StrayCommitIsLost()
    ensures exists es :: Fresh(HOT) && After(HOT, es).phase == Ended(true) && After(HOT, es).commits == 2 && !Serves(After(HOT, es))
  {
    hide After;
    var last := [StrayCommit] + ([Evict(true)] + []);
    var rest := [Assemble(true, Published, false)] + ([Open(true)] + ([Swap] + ([Check(true)] + last)));
    var es := [Backup(true, false)] + rest;
    var w1 := Next(HOT, Backup(true, false));
    var w2 := Next(w1, Assemble(true, Published, false));
    var w3 := Next(w2, Open(true));
    var w4 := Next(w3, Swap);
    var w5 := Next(w4, Check(true));
    var w6 := Next(w5, StrayCommit);
    Then(HOT, Backup(true, false), rest);
    Then(w1, Assemble(true, Published, false), [Open(true)] + ([Swap] + ([Check(true)] + last)));
    Then(w2, Open(true), [Swap] + ([Check(true)] + last));
    Then(w3, Swap, [Check(true)] + last);
    Then(w4, Check(true), last);
    Then(w5, StrayCommit, [Evict(true)] + []);
    Then(w6, Evict(true), []);
    NothingMore(Next(w6, Evict(true)));
    assert After(HOT, es) == Window(2, false, true, 1, Some(Copy(true, 1, 1, false)), Ended(true));
  }

  lemma NothingMore(w: Window)
    ensures After(w, []) == w
  {
  }

  // ------------------------------------------------------------------- restarts

  /**
   A pass that stays hot leaves its marker in the window directory, and a restart
   goes by the marker. Between two passes, a restart serves every committed write
   if and only if there is no marker, or the copy it describes is intact, agrees
   with its metadata, and is of the current snapshot.
   */
  lemma RestartServesIff(w: Window, es: seq<Event>)
    requires Fresh(w) && NoStray(es) && NoRestart(es) && (After(w, es).phase.Hot? || After(w, es).phase.Ended?)
    ensures var end := After(w, es);
            Serves(Next(end, Restart))
            <==> || end.marked.None?
                 || (!end.marked.value.torn && end.marked.value.segments == end.marked.value.metadata == end.commits)
  {
    RunKeepsOk(w, es);
    RunKeepsFrozen(w, es);
  }

  /** Whatever passes came before, one commit to a hot window that carries a marker is lost by the next restart. */
  lemma CommitUnderMarkerIsLost(w: Window, es: seq<Event>)
    requires Fresh(w) && var end := After(w, es);
                         end.marked.Some? && !end.cold && (end.phase.Hot? || end.phase == Ended(false))
    ensures var end := Next(After(w, es), Commit);
            && Serves(end) && end.commits == After(w, es).commits + 1
            && !Serves(Next(end, Restart))
  {
    RunKeepsOk(w, es);
  }

  /** A commit between backup and swap: the pass detects it and stays hot, and a restart before the next pass loses it. */
  lemma RacedPassThenRestartLosesCommit()
    ensures exists es ::
              var end := After(HOT, es);
              && Fresh(HOT) && NoStray(es) && NoRestart(es)
              && end.phase == Ended(false) && !end.cold && end.commits == 2 && Serves(end)
              && !Serves(Next(end, Restart))
  {
    hide After;
    var rest := [Assemble(false, Published, false)] + ([Open(true)] + ([Swap] + ([Check(true)] + [])));
    var es := [Backup(true, false)] + ([Commit] + rest);
    var w1 := Next(HOT, Backup(true, false));
    var w2 := Next(w1, Commit);
    var w3 := Next(w2, Assemble(false, Published, false));
    var w4 := Next(w3, Open(true));
    var w5 := Next(w4, Swap);
    Then(HOT, Backup(true, false), [Commit] + rest);
    Then(w1, Commit, rest);
    Then(w2, Assemble(false, Published, false), [Open(true)] + ([Swap] + ([Check(true)] + [])));
    Then(w3, Open(true), [Swap] + ([Check(true)] + []));
    Then(w4, Swap, [Check(true)] + []);
    Then(w5, Check(true), []);
    NothingMore(Next(w5, Check(true)));
    assert After(HOT, es) == Window(2, true, false, 1, Some(Copy(false, 1, 1, false)), Ended(false));
    assert es == [Backup(true, false), Commit, Assemble(false, Published, false), Open(true), Swap, Check(true)];
  }

  /** A bundle takes its metadata after the backup: with a commit in between it speaks of a segment it does not hold. A per-file copy does not. */
  lemma LateCommitSpoilsBundle(w: Window, es: seq<Event>, bundled: bool, tears: bool)
    requires Fresh(w) && After(w, es).phase.BackedUp?
    ensures var mid := After(w, es);
            var copy := Next(mid, Assemble(bundled, Published, tears)).marked.value;
            && copy.segments == mid.taken && !copy.torn
            && (copy.metadata == copy.segments <==> !bundled || mid.commits == mid.taken)
  {
    RunKeepsOk(w, es);
  }

  /** The steps of a pass that nothing disturbs. */
  function SmoothPass(bundled: bool): seq<Event> {
    [NextTick, Backup(true, false), Assemble(bundled, Published, false), Open(true), Swap, Check(true), Evict(true)]
  }

  /**
   A pass that stayed hot is made up for by the next one: whatever happened before,
   an undisturbed pass on the next tick parks the window, with every commit in the
   cold copy, and a restart then serves them all.
   */
  lemma RetriedPassParks(w: Window, es: seq<Event>, bundled: bool)
    requires Fresh(w) && After(w, es).phase == Ended(false)
    ensures var end := After(After(w, es), SmoothPass(bundled));
            && end.phase == Ended(true) && !end.bulk && end.commits == After(w, es).commits
            && ColdHolds(end) && Serves(end) && Serves(Next(end, Restart))
  {
    RunKeepsOk(w, es);
    hide After;
    var w0 := After(w, es);
    var w1 := Next(w0, NextTick);
    var w2 := Next(w1, Backup(true, false));
    var w3 := Next(w2, Assemble(bundled, Published, false));
    var w4 := Next(w3, Open(true));
    var w5 := Next(w4, Swap);
    var w6 := Next(w5, Check(true));
    var w7 := Next(w6, Evict(true));
    Seven(w0, NextTick, Backup(true, false), Assemble(bundled, Published, false), Open(true), Swap, Check(true), Evict(true));
  }

  lemma Seven(w: Window, a: Event, b: Event, c: Event, d: Event, e: Event, f: Event, g: Event)
    ensures After(w, [a, b, c, d, e, f, g]) == Next(Next(Next(Next(Next(Next(Next(w, a), b), c), d), e), f), g)
  {
    hide Next;
    var s1, s2, s3 := [a, b, c, d, e, f, g], [b, c, d, e, f, g], [c, d, e, f, g];
    var s4, s5, s6, s7 := [d, e, f, g], [e, f, g], [f, g], [g];
    assert s1[1..] == s2 && s2[1..] == s3 && s3[1..] == s4 && s4[1..] == s5 && s5[1..] == s6 && s6[1..] == s7 && s7[1..] == [];
    var w1 := Next(w, a);
    var w2 := Next(w1, b);
    var w3 := Next(w2, c);
    var w4 := Next(w3, d);
    var w5 := Next(w4, e);
    var w6 := Next(w5, f);
    assert After(w6, s7) == After(Next(w6, g), []);
    assert After(w5, s6) == After(w6, s7);
    assert After(w4, s5) == After(w5, s6);
    assert After(w3, s4) == After(w4, s5);
    assert After(w2, s3) == After(w3, s4);
    assert After(w1, s2) == After(w2, s3);
  }

  // --------------------------------------------------------- the pass as a program

  /** How many commits arrive in each gap of a pass, and how its fallible steps go. */
  datatype Circumstances = Circumstances(beforeBackup: nat, beforeBundle: nat, beforeOpen: nat, beforeSwap: nat,
                                         backsUp: bool, bundled: bool, reach: Reach, tears: bool,
                                         opens: bool, readable: bool, evicts: bool)
  {
    /** The commits that arrive after the backup and before the pass swaps or gives up. */
    function Late(): nat {
      if !backsUp then 0
      else beforeBundle + if !reach.Published? then 0 else beforeOpen + if opens then beforeSwap else 0
    }
  }

  class LiveWindow {
    var w: Window

    constructor (w: Window)
      ensures this.w == w
    {
      this.w := w;
    }

    method Step(e: Event)
      modifies this
      ensures w == Next(old(w), e)
    {
      w := Next(w, e);
    }

    /** Commits through the handle, while the node serves the window. */
    method Commits(n: nat)
      modifies this
      ensures w == old(w).(commits := old(w).commits + if old(w).cold then 0 else n)
    {
      for i := 0 to n
        invariant w == old(w).(commits := old(w).commits + if old(w).cold then 0 else i)
      {
        Step(Commit);
      }
    }

    /**
     One window of a park pass. It reports the window parked exactly when every
     step went through, the snapshot was readable and no commit arrived after the
     backup; otherwise the hot shard is in the handle with its files. Either way
     the handle serves every commit.
     */
    method ParkOne(c: Circumstances) returns (parked: bool)
      requires Fresh(w)
      modifies this
      ensures parked <==> c.backsUp && c.reach.Published? && c.opens && c.readable && c.Late() == 0
      ensures Serves(w) && w.phase == Ended(parked) && w.cold == parked
      ensures w.commits == old(w).commits + c.beforeBackup + c.Late()
      ensures w.bulk <==> !parked || !c.evicts
    {
      Commits(c.beforeBackup);
      Step(Backup(c.backsUp, c.tears));
      if w.phase.Ended? {
        return false;
      }
      Commits(c.beforeBundle);
      Step(Assemble(c.bundled, c.reach, c.tears));
      if w.phase.Ended? {
        return false;
      }
      Commits(c.beforeOpen);
      Step(Open(c.opens));
      if w.phase.Ended? {
        return false;
      }
      Commits(c.beforeSwap);
      Step(Swap);
      Step(Check(c.readable));
      if w.phase.Ended? {
        return false;
      }
      Step(Evict(c.evicts));
      parked := true;
    }
  }
}
