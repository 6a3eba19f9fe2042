/** The topology store: validation, persistence, and propagation to the routing registry. */
module AudioTopology {
  import opened Common
  import opened AudioRouting
  import Text

  datatype Stage =
    | SourceStage(plugin: string, format: AudioFormat, kind: string, path: string)
    | CompositionStage(plugin: string, formatIn: AudioFormat, formatOut: AudioFormat,
                       kindIn: string, pathIn: string, kindOut: string, pathOut: string)
    | DeliveryStage(plugin: string, format: AudioFormat, kind: string, path: string)

  datatype VolumeMode = NoVolume | Software | Hardware

  datatype Topology = Topology(targetKey: string, chain: seq<Stage>, volumeMode: VolumeMode,
                               volumePosition: Option<real>)

  datatype Fault =
    | EmptyKey | EmptyChain | TooShort | NoSource | NoDelivery | NotComposition(stage: nat)
    | VolumeRange | VolumeWithoutControl

  function StageRole(stage: Stage): Role {
    match stage
    case SourceStage(_, _, _, _) => Source
    case CompositionStage(_, _, _, _, _, _, _) => Composition
    case DeliveryStage(_, _, _, _) => Delivery
  }

  /** Where the source stage writes, the composition stage reads and writes, and the delivery stage reads. */
  function StageToResolved(stage: Stage, targetKey: string): ResolvedRouting {
    var reason := "active topology published for " + targetKey;
    match stage
    case SourceStage(_, format, kind, path) =>
      ResolvedRouting(Some(Endpoint(kind, path, format, 0)), None, format, reason)
    case CompositionStage(_, formatIn, formatOut, kindIn, pathIn, kindOut, pathOut) =>
      ResolvedRouting(Some(Endpoint(kindOut, pathOut, formatOut, 0)), Some(Endpoint(kindIn, pathIn, formatIn, 0)),
                      formatOut, reason)
    case DeliveryStage(_, format, kind, path) =>
      ResolvedRouting(None, Some(Endpoint(kind, path, format, 0)), format, reason)
  }

  /** Source, then compositions only, then delivery; a volume position only within range and with a control. */
  predicate WellFormed(t: Topology) {
    && !Text.Blank(t.targetKey)
    && |t.chain| >= 2 && t.chain[0].SourceStage? && t.chain[|t.chain| - 1].DeliveryStage?
    && (forall i :: 0 < i < |t.chain| - 1 ==> t.chain[i].CompositionStage?)
    && (t.volumePosition.Some? ==> 0.0 <= t.volumePosition.value <= 1.0 && t.volumeMode != NoVolume)
  }

  /** What a reported fault says about the topology. */
  predicate Shows(t: Topology, fault: Fault) {
    match fault
    case EmptyKey => Text.Blank(t.targetKey)
    case EmptyChain => t.chain == []
    case TooShort => |t.chain| == 1
    case NoSource => |t.chain| >= 2 && !t.chain[0].SourceStage?
    case NoDelivery => |t.chain| >= 2 && t.chain[0].SourceStage? && !t.chain[|t.chain| - 1].DeliveryStage?
    case NotComposition(i) => 0 < i < |t.chain| - 1 && !t.chain[i].CompositionStage?
                              && forall j :: 0 < j < i ==> t.chain[j].CompositionStage?
    case VolumeRange => t.volumePosition.Some? && !(0.0 <= t.volumePosition.value <= 1.0)
    case VolumeWithoutControl => t.volumePosition.Some? && t.volumeMode == NoVolume
  }

  /** The order in which faults are looked for. */
  function Rank(fault: Fault): nat {
    match fault
    case EmptyKey => 0
    case EmptyChain => 1
    case TooShort => 2
    case NoSource => 3
    case NoDelivery => 4
    case NotComposition(_) => 5
    case VolumeRange => 6
    case VolumeWithoutControl => 7
  }

  method TopologyValidate(t: Topology) returns (fault: Option<Fault>)
    ensures fault.None? <==> WellFormed(t)
    ensures fault.Some? ==> Shows(t, fault.value)
                            && forall other :: Rank(other) < Rank(fault.value) ==> !Shows(t, other)
  {
    if Text.Blank(t.targetKey) { return Some(EmptyKey); }
    if t.chain == [] { return Some(EmptyChain); }
    if |t.chain| < 2 { return Some(TooShort); }
    if !t.chain[0].SourceStage? { return Some(NoSource); }
    if !t.chain[|t.chain| - 1].DeliveryStage? { return Some(NoDelivery); }
    for i := 0 to |t.chain|
      invariant forall j :: 0 < j < i && j < |t.chain| - 1 ==> t.chain[j].CompositionStage?
    {
      if i == 0 || i == |t.chain| - 1 { continue; }
      if !t.chain[i].CompositionStage? { return Some(NotComposition(i)); }
    }
    if t.volumePosition.Some? && !(0.0 <= t.volumePosition.value <= 1.0) { return Some(VolumeRange); }
    if t.volumeMode == NoVolume && t.volumePosition.Some? { return Some(VolumeWithoutControl); }
    fault := None;
  }

  /** The registry once every stage of a chain has been published to it, first stage first. */
  function Propagated(plugins: Plugins, chain: seq<Stage>, targetKey: string): Plugins {
    if chain == [] then plugins
    else
      var last := chain[|chain| - 1];
      Routed(Propagated(plugins, chain[..|chain| - 1], targetKey), last.plugin, StageToResolved(last, targetKey))
  }

  function Cleared(plugins: Plugins, chain: seq<Stage>): Plugins {
    if chain == [] then plugins
    else Unrouted(Cleared(plugins, chain[..|chain| - 1]), chain[|chain| - 1].plugin)
  }

  /** The registry after re-publishing the rows one by one; a row refused or whose write fails is not propagated. */
  function Rehydrated(plugins: Plugins, rows: seq<Topology>, failing: set<string>): Plugins {
    if rows == [] then plugins
    else
      var t := rows[|rows| - 1];
      var before := Rehydrated(plugins, rows[..|rows| - 1], failing);
      if t.targetKey in failing || !WellFormed(t) then before else Propagated(before, t.chain, t.targetKey)
  }

  /** The registry after a boot: nothing is published where the rows cannot be listed. */
  function Booted(plugins: Plugins, listing: Option<seq<Topology>>, failing: set<string>): Plugins {
    match listing case None => plugins case Some(rows) => Rehydrated(plugins, rows, failing)
  }

  datatype StoreError = Persistence | Validation(fault: Fault)

  datatype Stored<T> = Done(value: T) | Failed(error: StoreError)

  class AudioTopologyStore {
    var rows: map<string, Topology>
    const routing: AudioRoutingRuntime

    constructor (rows: map<string, Topology>, routing: AudioRoutingRuntime)
      ensures this.rows == rows && this.routing == routing
    {
      this.rows := rows;
      this.routing := routing;
    }

    method Publish(t: Topology, writeFails: bool) returns (r: Stored<Topology>)
      modifies this, routing
      ensures r.Done? <==> WellFormed(t) && !writeFails
      ensures r.Done? ==> r.value == t && rows == old(rows)[t.targetKey := t]
                          && routing.plugins == Propagated(old(routing.plugins), t.chain, t.targetKey)
      ensures r.Failed? ==> rows == old(rows) && routing.plugins == old(routing.plugins)
      ensures r.Failed? ==> match r.error case Persistence => WellFormed(t) && writeFails
                                          case Validation(fault) => Shows(t, fault)
    {
      var fault := TopologyValidate(t);
      if fault.Some? { return Failed(Validation(fault.value)); }
      if writeFails { return Failed(Persistence); }
      rows := rows[t.targetKey := t];
      for i := 0 to |t.chain|
        invariant rows == old(rows)[t.targetKey := t]
        invariant routing.plugins == Propagated(old(routing.plugins), t.chain[..i], t.targetKey)
      {
        assert t.chain[..i + 1][..i] == t.chain[..i];
        var _, _ := routing.PublishTopology(t.chain[i].plugin, StageToResolved(t.chain[i], t.targetKey));
      }
      assert t.chain[..|t.chain|] == t.chain;
      r := Done(t);
    }

    /** The routing goes first, so a delete that fails leaves the row behind without its routing. */
    method Clear(targetKey: string, readFails: bool, deleteFails: bool) returns (r: Stored<()>)
      modifies this, routing
      ensures r == if readFails || deleteFails then Failed(Persistence) else Done(())
      ensures rows == if r.Done? then old(rows) - {targetKey} else old(rows)
      ensures routing.plugins == if readFails || targetKey !in old(rows) then old(routing.plugins)
                                 else Cleared(old(routing.plugins), old(rows)[targetKey].chain)
    {
      if readFails { return Failed(Persistence); }
      if targetKey in rows {
        var chain := rows[targetKey].chain;
        for i := 0 to |chain|
          invariant rows == old(rows)
          invariant routing.plugins == Cleared(old(routing.plugins), chain[..i])
        {
          assert chain[..i + 1][..i] == chain[..i];
          routing.ClearTopology(chain[i].plugin);
        }
        assert chain[..|chain|] == chain;
      }
      if deleteFails { return Failed(Persistence); }
      rows := rows - {targetKey};
      r := Done(());
    }

    /** Boot: every listed row is published again, whatever becomes of the others; a failed listing publishes none. */
    method Rehydrate(listing: Option<seq<Topology>>, failing: set<string>)
      requires listing.Some? ==> forall t :: t in listing.value ==> t.targetKey in rows && rows[t.targetKey] == t
      modifies this, routing
      ensures rows == old(rows)
      ensures routing.plugins == Booted(old(routing.plugins), listing, failing)
    {
      if listing.None? {
        return;
      }
      var listed := listing.value;
      for i := 0 to |listed|
        invariant rows == old(rows)
        invariant routing.plugins == Rehydrated(old(routing.plugins), listed[..i], failing)
      {
        assert listed[..i + 1][..i] == listed[..i];
        var _ := Publish(listed[i], listed[i].targetKey in failing);
      }
      assert listed[..|listed|] == listed;
    }
  }
}
