/** Runs of publishing, clearing and restarting: what is stored, and what plugin handles then answer. */
module AudioTopologyRuns {
  import opened Common
  import opened AudioRouting
  import opened AudioTopology

  /** `adrift` is history: the stored targets whose routing a failed delete or re-publish has left unset. */
  datatype State = State(rows: map<string, Topology>, plugins: Plugins, adrift: set<string>)

  datatype Step =
    | Publish(t: Topology, writeFails: bool)
    | Clear(targetKey: string, readFails: bool, deleteFails: bool)
    | Restart(listing: Option<seq<Topology>>, failing: set<string>)
    | Admit(name: string)
    | Watch(name: string, callback: Option<nat>)

  /** The rows in whatever order the store lists them. */
  ghost predicate Lists(rows: map<string, Topology>, listed: seq<Topology>) {
    && (forall t :: t in listed ==> t.targetKey in rows && rows[t.targetKey] == t)
    && (forall k :: k in rows ==> rows[k] in listed)
  }

  ghost predicate CanTake(s: State, step: Step) {
    step.Restart? && step.listing.Some? ==> Lists(s.rows, step.listing.value)
  }

  ghost function After(s: State, step: Step): State
    requires CanTake(s, step)
  {
    match step
    case Publish(t, writeFails) =>
      if !WellFormed(t) || writeFails then s
      else State(s.rows[t.targetKey := t], Propagated(s.plugins, t.chain, t.targetKey), s.adrift - {t.targetKey})
    case Clear(key, readFails, deleteFails) =>
      if readFails || key !in s.rows then s
      else
        var plugins := Cleared(s.plugins, s.rows[key].chain);
        if deleteFails then State(s.rows, plugins, s.adrift + {key})
        else State(s.rows - {key}, plugins, s.adrift - {key})
    case Restart(listing, failing) =>
      State(s.rows, Booted(map[], listing, failing), if listing.None? then s.rows.Keys else s.rows.Keys * failing)
    case Admit(name) => s.(plugins := s.plugins[name := EntryOf(s.plugins, name)])
    case Watch(name, callback) =>
      if name in s.plugins then s.(plugins := s.plugins[name := s.plugins[name].(onChange := callback)]) else s
  }

  ghost predicate CanRun(s: State, run: seq<Step>)
    decreases |run|
  {
    run == [] || (CanTake(s, run[0]) && CanRun(After(s, run[0]), run[1..]))
  }

  ghost function End(s: State, run: seq<Step>): State
    requires CanRun(s, run)
    decreases |run|
  {
    if run == [] then s else End(After(s, run[0]), run[1..])
  }

  const FRESH := State(map[], map[], {})

  // ---------------------------------------------------------------------------
  // What is stored
  // ---------------------------------------------------------------------------

  ghost predicate RowsWellFormed(s: State) {
    forall k :: k in s.rows ==> s.rows[k].targetKey == k && WellFormed(s.rows[k])
  }

  lemma {:induction false} RunKeepsRowsWellFormed(s: State, run: seq<Step>)
    requires RowsWellFormed(s) && CanRun(s, run)
    ensures RowsWellFormed(End(s, run))
    decreases |run|
  {
    if run != [] {
      RunKeepsRowsWellFormed(After(s, run[0]), run[1..]);
    }
  }

  ghost predicate AllCompositions(stages: seq<Stage>) {
    forall i :: 0 <= i < |stages| ==> stages[i].CompositionStage?
  }

  /** In every run, every stored chain is a source, then compositions only, then a delivery. */
  lemma StoredChainsHaveTheirForm(run: seq<Step>, key: string)
    returns (source: Stage, middle: seq<Stage>, delivery: Stage)
    requires CanRun(FRESH, run) && key in End(FRESH, run).rows
    ensures End(FRESH, run).rows[key].targetKey == key
    ensures End(FRESH, run).rows[key].chain == [source] + middle + [delivery]
    ensures source.SourceStage? && AllCompositions(middle) && delivery.DeliveryStage?
  {
    RunKeepsRowsWellFormed(FRESH, run);
    var chain := End(FRESH, run).rows[key].chain;
    source, middle, delivery := chain[0], chain[1..|chain| - 1], chain[|chain| - 1];
  }

  // ---------------------------------------------------------------------------
  // Propagation
  // ---------------------------------------------------------------------------

  predicate Uses(chain: seq<Stage>, name: string) {
    exists i :: 0 <= i < |chain| && chain[i].plugin == name
  }

  lemma UsesFront(chain: seq<Stage>, name: string)
    requires chain != []
    ensures Uses(chain, name) <==> Uses(chain[..|chain| - 1], name) || chain[|chain| - 1].plugin == name
  {
    var front := chain[..|chain| - 1];
    if Uses(chain, name) {
      var i :| 0 <= i < |chain| && chain[i].plugin == name;
      assert i < |front| ==> front[i].plugin == name;
    }
    if Uses(front, name) {
      var i :| 0 <= i < |front| && front[i].plugin == name;
      assert chain[i].plugin == name;
    }
  }

  lemma {:induction false} PropagationLeavesOthers(plugins: Plugins, chain: seq<Stage>, key: string, name: string)
    requires !Uses(chain, name)
    ensures ResolvedFor(Propagated(plugins, chain, key), name) == ResolvedFor(plugins, name)
  {
    if chain != [] {
      UsesFront(chain, name);
      PropagationLeavesOthers(plugins, chain[..|chain| - 1], key, name);
    }
  }

  /** A plugin used twice keeps the routing of its last stage. */
  lemma {:induction false} LastStageWins(plugins: Plugins, chain: seq<Stage>, key: string, i: nat)
    requires i < |chain| && forall j :: i < j < |chain| ==> chain[j].plugin != chain[i].plugin
    ensures ResolvedFor(Propagated(plugins, chain, key), chain[i].plugin) == Some(StageToResolved(chain[i], key))
  {
    if i < |chain| - 1 {
      LastStageWins(plugins, chain[..|chain| - 1], key, i);
    }
  }

  lemma {:induction false} LastUse(chain: seq<Stage>, i: nat) returns (last: nat)
    requires i < |chain|
    ensures i <= last < |chain| && chain[last].plugin == chain[i].plugin
    ensures forall j :: last < j < |chain| ==> chain[j].plugin != chain[i].plugin
    decreases |chain| - i
  {
    last := i;
    if j :| i < j < |chain| && chain[j].plugin == chain[i].plugin {
      last := LastUse(chain, j);
    }
  }

  /** Publishing gives every stage its own routing exactly when stages sharing a plugin route alike. */
  lemma EveryStageRoutedIff(plugins: Plugins, chain: seq<Stage>, key: string)
    ensures (forall i :: 0 <= i < |chain| ==> ResolvedFor(Propagated(plugins, chain, key), chain[i].plugin)
                                              == Some(StageToResolved(chain[i], key)))
            <==> (forall i, j :: 0 <= i < j < |chain| && chain[i].plugin == chain[j].plugin
                                 ==> StageToResolved(chain[i], key) == StageToResolved(chain[j], key))
  {
    if forall i, j :: 0 <= i < j < |chain| && chain[i].plugin == chain[j].plugin
                      ==> StageToResolved(chain[i], key) == StageToResolved(chain[j], key) {
      forall i | 0 <= i < |chain|
        ensures ResolvedFor(Propagated(plugins, chain, key), chain[i].plugin) == Some(StageToResolved(chain[i], key))
      {
        var last := LastUse(chain, i);
        LastStageWins(plugins, chain, key, last);
      }
    }
  }

  lemma {:induction false} ClearingUnsets(plugins: Plugins, chain: seq<Stage>, name: string)
    ensures ResolvedFor(Cleared(plugins, chain), name) == if Uses(chain, name) then None else ResolvedFor(plugins, name)
  {
    if chain != [] {
      UsesFront(chain, name);
      ClearingUnsets(plugins, chain[..|chain| - 1], name);
    }
  }

  // ---------------------------------------------------------------------------
  // Targets that share no plugin
  // ---------------------------------------------------------------------------

  predicate Distinct(chain: seq<Stage>) {
    forall i, j :: 0 <= i < j < |chain| ==> chain[i].plugin != chain[j].plugin
  }

  ghost predicate Apart(a: seq<Stage>, b: seq<Stage>) {
    forall i :: 0 <= i < |a| ==> !Uses(b, a[i].plugin)
  }

  /** Stored chains use distinct plugin names, within and across targets. */
  ghost predicate Owned(rows: map<string, Topology>) {
    && (forall k :: k in rows ==> rows[k].targetKey == k && WellFormed(rows[k]) && Distinct(rows[k].chain))
    && (forall k, l :: k in rows && l in rows && k != l ==> Apart(rows[k].chain, rows[l].chain))
  }

  /** Every publish of the run leaves the stored chains distinct. */
  ghost predicate KeepsOwnership(s: State, run: seq<Step>)
    requires CanRun(s, run)
    decreases |run|
  {
    run == [] || (Owned(After(s, run[0]).rows) && KeepsOwnership(After(s, run[0]), run[1..]))
  }

  ghost predicate RoutedAs(plugins: Plugins, t: Topology, on: bool) {
    forall i :: 0 <= i < |t.chain| ==>
      ResolvedFor(plugins, t.chain[i].plugin) == if on then Some(StageToResolved(t.chain[i], t.targetKey)) else None
  }

  ghost predicate Inv(s: State) {
    && Owned(s.rows) && s.adrift <= s.rows.Keys
    && forall k :: k in s.rows ==> RoutedAs(s.plugins, s.rows[k], k !in s.adrift)
  }

  lemma PublishKeepsOthers(plugins: Plugins, t: Topology, other: Topology, on: bool)
    requires RoutedAs(plugins, other, on) && Apart(other.chain, t.chain)
    ensures RoutedAs(Propagated(plugins, t.chain, t.targetKey), other, on)
  {
    forall i | 0 <= i < |other.chain|
      ensures ResolvedFor(Propagated(plugins, t.chain, t.targetKey), other.chain[i].plugin)
              == ResolvedFor(plugins, other.chain[i].plugin)
    {
      PropagationLeavesOthers(plugins, t.chain, t.targetKey, other.chain[i].plugin);
    }
  }

  lemma PublishRoutes(plugins: Plugins, t: Topology)
    requires Distinct(t.chain)
    ensures RoutedAs(Propagated(plugins, t.chain, t.targetKey), t, true)
  {
    forall i | 0 <= i < |t.chain|
      ensures ResolvedFor(Propagated(plugins, t.chain, t.targetKey), t.chain[i].plugin)
              == Some(StageToResolved(t.chain[i], t.targetKey))
    {
      LastStageWins(plugins, t.chain, t.targetKey, i);
    }
  }

  lemma ClearKeepsOthers(plugins: Plugins, chain: seq<Stage>, other: Topology, on: bool)
    requires RoutedAs(plugins, other, on) && Apart(other.chain, chain)
    ensures RoutedAs(Cleared(plugins, chain), other, on)
  {
    forall i | 0 <= i < |other.chain|
      ensures ResolvedFor(Cleared(plugins, chain), other.chain[i].plugin) == ResolvedFor(plugins, other.chain[i].plugin)
    {
      ClearingUnsets(plugins, chain, other.chain[i].plugin);
    }
  }

  lemma ClearUnroutes(plugins: Plugins, t: Topology)
    ensures RoutedAs(Cleared(plugins, t.chain), t, false)
  {
    forall i | 0 <= i < |t.chain| ensures ResolvedFor(Cleared(plugins, t.chain), t.chain[i].plugin) == None {
      ClearingUnsets(plugins, t.chain, t.chain[i].plugin);
    }
  }

  lemma {:induction false} RehydrationRoutes(rows: map<string, Topology>, listed: seq<Topology>,
                                             failing: set<string>, key: string)
    requires Owned(rows) && key in rows
    requires forall t :: t in listed ==> t.targetKey in rows && rows[t.targetKey] == t
    ensures RoutedAs(Rehydrated(map[], listed, failing), rows[key], rows[key] in listed && key !in failing)
  {
    if listed != [] {
      var last := listed[|listed| - 1];
      var front := listed[..|listed| - 1];
      assert listed == front + [last];
      assert last in listed;
      RehydrationRoutes(rows, front, failing, key);
      var before := Rehydrated(map[], front, failing);
      if last.targetKey !in failing {
        if last.targetKey == key {
          PublishRoutes(before, last);
        } else {
          PublishKeepsOthers(before, last, rows[key], rows[key] in front && key !in failing);
        }
      }
    }
  }

  lemma PublishKeepsInv(s: State, t: Topology)
    requires Inv(s) && WellFormed(t) && Owned(After(s, Publish(t, false)).rows)
    ensures Inv(After(s, Publish(t, false)))
  {
    var s' := After(s, Publish(t, false));
    forall k | k in s'.rows ensures RoutedAs(s'.plugins, s'.rows[k], k !in s'.adrift) {
      assert s'.rows[t.targetKey] == t;
      if k == t.targetKey {
        PublishRoutes(s.plugins, t);
      } else {
        assert s'.rows[k] == s.rows[k];
        PublishKeepsOthers(s.plugins, t, s.rows[k], k !in s.adrift);
      }
    }
  }

  lemma ClearKeepsInv(s: State, key: string, deleteFails: bool)
    requires Inv(s) && key in s.rows && Owned(After(s, Clear(key, false, deleteFails)).rows)
    ensures Inv(After(s, Clear(key, false, deleteFails)))
  {
    var s' := After(s, Clear(key, false, deleteFails));
    forall k | k in s'.rows ensures RoutedAs(s'.plugins, s'.rows[k], k !in s'.adrift) {
      ClearKeepsRow(s, key, deleteFails, k);
    }
  }

  lemma ClearKeepsRow(s: State, key: string, deleteFails: bool, k: string)
    requires Inv(s) && key in s.rows && k in After(s, Clear(key, false, deleteFails)).rows
    ensures var s' := After(s, Clear(key, false, deleteFails));
            s'.rows[k] == s.rows[k] && RoutedAs(s'.plugins, s'.rows[k], k !in s'.adrift)
  {
    if k == key {
      ClearUnroutes(s.plugins, s.rows[key]);
    } else {
      ClearKeepsOthers(s.plugins, s.rows[key].chain, s.rows[k], k !in s.adrift);
    }
  }

  lemma RestartKeepsInv(s: State, listing: Option<seq<Topology>>, failing: set<string>)
    requires Inv(s) && CanTake(s, Restart(listing, failing))
    ensures Inv(After(s, Restart(listing, failing)))
  {
    var s' := After(s, Restart(listing, failing));
    forall k | k in s'.rows ensures RoutedAs(s'.plugins, s'.rows[k], k !in s'.adrift) {
      if listing.Some? { RehydrationRoutes(s.rows, listing.value, failing, k); }
    }
  }

  lemma SameRoutesKeepInv(s: State, plugins: Plugins)
    requires Inv(s) && forall n :: ResolvedFor(plugins, n) == ResolvedFor(s.plugins, n)
    ensures Inv(s.(plugins := plugins))
  {
    forall k | k in s.rows ensures RoutedAs(plugins, s.rows[k], k !in s.adrift) {
      assert RoutedAs(s.plugins, s.rows[k], k !in s.adrift);
    }
  }

  lemma StepKeepsInv(s: State, step: Step)
    requires Inv(s) && CanTake(s, step) && Owned(After(s, step).rows)
    ensures Inv(After(s, step))
  {
    match step
    case Publish(t, writeFails) =>
      if WellFormed(t) && !writeFails { PublishKeepsInv(s, t); }
    case Clear(key, readFails, deleteFails) =>
      if !readFails && key in s.rows { ClearKeepsInv(s, key, deleteFails); }
    case Restart(listing, failing) =>
      RestartKeepsInv(s, listing, failing);
    case Admit(name) =>
      SameRoutesKeepInv(s, After(s, step).plugins);
    case Watch(name, callback) =>
      SameRoutesKeepInv(s, After(s, step).plugins);
  }

  lemma {:induction false} RunKeepsInv(s: State, run: seq<Step>)
    requires Inv(s) && CanRun(s, run) && KeepsOwnership(s, run)
    ensures Inv(End(s, run))
    decreases |run|
  {
    if run != [] {
      StepKeepsInv(s, run[0]);
      RunKeepsInv(After(s, run[0]), run[1..]);
    }
  }

  // ---------------------------------------------------------------------------
  // What handles answer
  // ---------------------------------------------------------------------------

  /** The handle of a stage's plugin, in the stage's role, answers the stage's own endpoints and refuses the rest. */
  predicate Served(plugins: Plugins, stage: Stage) {
    var role := StageRole(stage);
    var write, read := WriteAnswer(plugins, stage.plugin, role), ReadAnswer(plugins, stage.plugin, role);
    var pair, format := PairAnswer(plugins, stage.plugin, role), FormatAnswer(plugins, stage.plugin);
    match stage
    case SourceStage(_, f, kind, path) =>
      write == Ok(Endpoint(kind, path, f, 0)) && read == Err(WrongStage)
      && pair == Err(NotCompositionPlugin) && format == Ok(f)
    case CompositionStage(_, fi, fo, ki, pi, ko, po) =>
      write == Ok(Endpoint(ko, po, fo, 0)) && read == Ok(Endpoint(ki, pi, fi, 0))
      && pair == Ok((Endpoint(ki, pi, fi, 0), Endpoint(ko, po, fo, 0))) && format == Ok(fo)
    case DeliveryStage(_, f, kind, path) =>
      write == Err(WrongStage) && read == Ok(Endpoint(kind, path, f, 0))
      && pair == Err(NotCompositionPlugin) && format == Ok(f)
  }

  lemma ServedIff(plugins: Plugins, t: Topology, i: nat, on: bool)
    requires RoutedAs(plugins, t, on) && i < |t.chain|
    ensures Served(plugins, t.chain[i]) <==> on
  {
    assert ResolvedFor(plugins, t.chain[i].plugin)
           == if on then Some(StageToResolved(t.chain[i], t.targetKey)) else None;
  }

  /**
   In every run that keeps plugins apart, a stored stage's handle serves it, and is told why, unless its
   target is adrift.
   */
  lemma StoredStagesAreServedIff(run: seq<Step>, key: string, i: nat)
    requires CanRun(FRESH, run) && KeepsOwnership(FRESH, run)
    requires key in End(FRESH, run).rows && i < |End(FRESH, run).rows[key].chain|
    ensures var s := End(FRESH, run);
            Served(s.plugins, s.rows[key].chain[i]) <==> key !in s.adrift
    ensures var s := End(FRESH, run);
            (match ResolvedFor(s.plugins, s.rows[key].chain[i].plugin)
             case None => key in s.adrift
             case Some(r) => key !in s.adrift && r.reason == "active topology published for " + key)
  {
    RunKeepsInv(FRESH, run);
    var s := End(FRESH, run);
    assert RoutedAs(s.plugins, s.rows[key], key !in s.adrift);
    ServedIff(s.plugins, s.rows[key], i, key !in s.adrift);
  }

  /** The four things a handle can be asked get the same answers. */
  ghost predicate SameAnswers(before: Plugins, after: Plugins, name: string, role: Role) {
    && WriteAnswer(after, name, role) == WriteAnswer(before, name, role)
    && ReadAnswer(after, name, role) == ReadAnswer(before, name, role)
    && PairAnswer(after, name, role) == PairAnswer(before, name, role)
    && FormatAnswer(after, name) == FormatAnswer(before, name)
  }

  lemma BothRouted(before: Plugins, after: Plugins, t: Topology, i: nat, role: Role)
    requires RoutedAs(before, t, true) && RoutedAs(after, t, true) && i < |t.chain|
    ensures SameAnswers(before, after, t.chain[i].plugin, role)
  {
  }

  /**
   A restart, in whatever order the rows come back, changes no answer to a stored stage exactly when
   the rows could be listed and the stage's row was published again.
   */
  lemma RestartChangesNoAnswerIff(run: seq<Step>, listing: Option<seq<Topology>>, failing: set<string>,
                                  key: string, i: nat, role: Role)
    requires CanRun(FRESH, run) && KeepsOwnership(FRESH, run)
    requires CanTake(End(FRESH, run), Restart(listing, failing))
    requires key in End(FRESH, run).rows && key !in End(FRESH, run).adrift && i < |End(FRESH, run).rows[key].chain|
    ensures var s := End(FRESH, run);
            SameAnswers(s.plugins, After(s, Restart(listing, failing)).plugins, s.rows[key].chain[i].plugin, role)
            <==> listing.Some? && key !in failing
  {
    RunKeepsInv(FRESH, run);
    var s := End(FRESH, run);
    var s' := After(s, Restart(listing, failing));
    RestartKeepsInv(s, listing, failing);
    if key !in s'.adrift {
      BothRouted(s.plugins, s'.plugins, s.rows[key], i, role);
    } else {
      ServedIff(s.plugins, s.rows[key], i, true);
      ServedIff(s'.plugins, s.rows[key], i, false);
      assert ResolvedFor(s'.plugins, s.rows[key].chain[i].plugin) == None;
    }
  }

  // ---------------------------------------------------------------------------
  // What decides a plugin's routing, in any run
  // ---------------------------------------------------------------------------

  /** The routing of the last stage of a chain that uses the plugin. */
  function LastStageRouting(chain: seq<Stage>, key: string, name: string): Option<ResolvedRouting> {
    if chain == [] then None
    else if chain[|chain| - 1].plugin == name then Some(StageToResolved(chain[|chain| - 1], key))
    else LastStageRouting(chain[..|chain| - 1], key, name)
  }

  /** The routing a boot gives a plugin: that of the last published row that uses it. */
  function BootRouting(listed: seq<Topology>, failing: set<string>, name: string): Option<ResolvedRouting> {
    if listed == [] then None
    else
      var t := listed[|listed| - 1];
      if t.targetKey !in failing && WellFormed(t) && LastStageRouting(t.chain, t.targetKey, name).Some?
      then LastStageRouting(t.chain, t.targetKey, name)
      else BootRouting(listed[..|listed| - 1], failing, name)
  }

  /** What a step that touches the plugin leaves it with; nothing for one that does not. */
  ghost function Setting(s: State, step: Step, name: string): Option<Option<ResolvedRouting>> {
    match step
    case Publish(t, writeFails) =>
      if WellFormed(t) && !writeFails && LastStageRouting(t.chain, t.targetKey, name).Some?
      then Some(LastStageRouting(t.chain, t.targetKey, name)) else None
    case Clear(key, readFails, _) =>
      if !readFails && key in s.rows && Uses(s.rows[key].chain, name) then Some(None) else None
    case Restart(listing, failing) =>
      Some(match listing case None => None case Some(listed) => BootRouting(listed, failing, name))
    case _ => None
  }

  ghost predicate NothingTouches(s: State, run: seq<Step>, name: string)
    requires CanRun(s, run)
    decreases |run|
  {
    run == [] || (Setting(s, run[0], name).None? && NothingTouches(After(s, run[0]), run[1..], name))
  }

  lemma {:induction false} PropagatedRouting(plugins: Plugins, chain: seq<Stage>, key: string, name: string)
    ensures ResolvedFor(Propagated(plugins, chain, key), name) ==
            if LastStageRouting(chain, key, name).Some? then LastStageRouting(chain, key, name)
            else ResolvedFor(plugins, name)
  {
    if chain != [] { PropagatedRouting(plugins, chain[..|chain| - 1], key, name); }
  }

  lemma {:induction false} RehydratedRouting(listed: seq<Topology>, failing: set<string>, name: string)
    ensures ResolvedFor(Rehydrated(map[], listed, failing), name) == BootRouting(listed, failing, name)
  {
    if listed != [] {
      var t, front := listed[|listed| - 1], listed[..|listed| - 1];
      RehydratedRouting(front, failing, name);
      PropagatedRouting(Rehydrated(map[], front, failing), t.chain, t.targetKey, name);
    }
  }

  /** A step gives a plugin its setting, or leaves it alone. */
  lemma StepSets(s: State, step: Step, name: string)
    requires CanTake(s, step)
    ensures ResolvedFor(After(s, step).plugins, name) ==
            if Setting(s, step, name).Some? then Setting(s, step, name).value else ResolvedFor(s.plugins, name)
  {
    match step
    case Publish(t, _) => PropagatedRouting(s.plugins, t.chain, t.targetKey, name);
    case Clear(key, _, _) => if key in s.rows { ClearingUnsets(s.plugins, s.rows[key].chain, name); }
    case Restart(listing, failing) => if listing.Some? { RehydratedRouting(listing.value, failing, name); }
    case _ =>
  }

  lemma {:induction false} UntouchedStays(s: State, run: seq<Step>, name: string)
    requires CanRun(s, run) && NothingTouches(s, run, name)
    ensures ResolvedFor(End(s, run).plugins, name) == ResolvedFor(s.plugins, name)
    decreases |run|
  {
    if run != [] {
      StepSets(s, run[0], name);
      UntouchedStays(After(s, run[0]), run[1..], name);
    }
  }

  /**
   Whatever targets share, in every run a plugin's routing is what the last publish, clear or restart
   that touched it left, and nothing if none did.
   */
  lemma LastTouchDecides(before: seq<Step>, step: Step, later: seq<Step>, name: string)
    requires CanRun(FRESH, before) && CanTake(End(FRESH, before), step)
    requires CanRun(After(End(FRESH, before), step), later)
    requires NothingTouches(After(End(FRESH, before), step), later, name)
    ensures var s := End(FRESH, before);
            ResolvedFor(End(After(s, step), later).plugins, name) ==
            if Setting(s, step, name).Some? then Setting(s, step, name).value
            else ResolvedFor(s.plugins, name)
    ensures NothingTouches(FRESH, before, name) && Setting(End(FRESH, before), step, name).None? ==>
            ResolvedFor(End(After(End(FRESH, before), step), later).plugins, name) == None
  {
    var s := End(FRESH, before);
    StepSets(s, step, name);
    UntouchedStays(After(s, step), later, name);
    if NothingTouches(FRESH, before, name) { UntouchedStays(FRESH, before, name); }
  }

  // ---------------------------------------------------------------------------
  // Plugins that are shared or dropped
  // ---------------------------------------------------------------------------

  /** Clearing a target takes a plugin's routing away exactly when the cleared chain uses it, whoever else does. */
  lemma ClearWipesSharedIff(s: State, key: string, deleteFails: bool, name: string)
    requires key in s.rows && ResolvedFor(s.plugins, name).Some?
    ensures ResolvedFor(After(s, Clear(key, false, deleteFails)).plugins, name)
            == if Uses(s.rows[key].chain, name) then None else ResolvedFor(s.plugins, name)
  {
    ClearingUnsets(s.plugins, s.rows[key].chain, name);
  }

  lemma StepThenRun(s: State, step: Step, rest: seq<Step>) returns (run: seq<Step>)
    requires CanTake(s, step) && CanRun(After(s, step), rest)
    ensures CanRun(s, run) && End(s, run) == End(After(s, step), rest)
  {
    run := [step] + rest;
    assert run[1..] == rest;
  }

  /**
   Two targets share a plugin and the later one is cleared: the earlier target is still stored and
   nothing failed, but its stage's handle no longer serves it.
   */
  lemma SharedPluginIsWiped(a: Topology, b: Topology, i: nat) returns (run: seq<Step>)
    requires WellFormed(a) && WellFormed(b) && a.targetKey != b.targetKey
    requires i < |a.chain| && Uses(b.chain, a.chain[i].plugin)
    ensures CanRun(FRESH, run)
    ensures var s := End(FRESH, run);
            && s.rows == map[a.targetKey := a] && s.adrift == {}
            && !Served(s.plugins, a.chain[i])
  {
    var s1 := After(FRESH, Publish(a, false));
    var s2 := After(s1, Publish(b, false));
    var s3 := After(s2, Clear(b.targetKey, false, false));
    run := StepThenRun(s2, Clear(b.targetKey, false, false), []);
    run := StepThenRun(s1, Publish(b, false), run);
    run := StepThenRun(FRESH, Publish(a, false), run);
    assert s3.rows == map[a.targetKey := a];
    ClearingUnsets(s2.plugins, b.chain, a.chain[i].plugin);
    assert ResolvedFor(s3.plugins, a.chain[i].plugin) == None;
  }

  lemma {:induction false} RehydrationLeavesOthers(listed: seq<Topology>, failing: set<string>, name: string)
    requires forall t :: t in listed ==> !Uses(t.chain, name)
    ensures ResolvedFor(Rehydrated(map[], listed, failing), name) == None
  {
    if listed != [] {
      var last := listed[|listed| - 1];
      var front := listed[..|listed| - 1];
      assert listed == front + [last];
      assert last in listed;
      RehydrationLeavesOthers(front, failing, name);
      PropagationLeavesOthers(Rehydrated(map[], front, failing), last.chain, last.targetKey, name);
    }
  }

  /** A plugin dropped by a re-publish keeps the routing it had; only a restart takes it away. */
  lemma DroppedPluginKeepsRoutingUntilRestart(s: State, t: Topology, name: string,
                                              listing: Option<seq<Topology>>, failing: set<string>)
    requires WellFormed(t) && !Uses(t.chain, name)
    requires forall k :: k in s.rows && k != t.targetKey ==> !Uses(s.rows[k].chain, name)
    requires CanTake(After(s, Publish(t, false)), Restart(listing, failing))
    ensures var republished := After(s, Publish(t, false));
            && ResolvedFor(republished.plugins, name) == ResolvedFor(s.plugins, name)
            && ResolvedFor(After(republished, Restart(listing, failing)).plugins, name) == None
  {
    PropagationLeavesOthers(s.plugins, t.chain, t.targetKey, name);
    if listing.Some? { RehydrationLeavesOthers(listing.value, failing, name); }
  }
}
