/**
 * ahc_tools/match.py: matching each Ironic node against the edeploy state,
 * reshaping the match into node_info, building the patches for the node,
 * and the main loop that matches every node before updating the matched ones.
 */
module Match {
  import opened Wrappers
  import opened Builtins
  import opened Utils
  import Exc

  /** A JSON-like value, as the state library and Ironic hand them around. */
  datatype Value =
    | Null
    | Bool(b: bool)
    | Int(i: int)
    | Str(s: string)
    | List(elements: seq<Value>)
    | Object(fields: map<string, Value>)

  /** The parts of an Ironic node this code reads. */
  datatype Node = Node(uuid: string, capabilities: Option<string>, extra: map<string, Value>)

  /** One JSON-patch operation handed to Ironic's node.update. */
  datatype Patch = Patch(op: string, path: string, value: Value)

  const HardwareKey: string := "hardware"
  const ProfileKey: string := "profile"
  const TargetRaidKey: string := "target_raid_configuration"
  const LogicalDisksKey: string := "logical_disks"
  const BiosSettingsKey: string := "bios_settings"
  const SwiftObjectKey: string := "hardware_swift_object"

  const AddOp: string := "add"
  const ConfigDrivePath: string := "/extra/configdrive_metadata"
  const CapabilitiesPath: string := "/properties/capabilities"
  const TargetRaidPath: string := "/extra/target_raid_configuration"
  const BiosSettingsPath: string := "/extra/bios_settings"

  /** The message get_facts exits with when a node was never introspected. */
  const NoIntrospectionMessage: string :=
    "You must run introspection on the nodes before running this tool.\n"

  /** node_info['hardware']['profile'], when it is a string. */
  function ProfileOf(hardware: Value): (profile: Option<string>)
    ensures profile.Some? <==> hardware.Object? && ProfileKey in hardware.fields && hardware.fields[ProfileKey].Str?
    ensures profile.Some? ==> hardware.fields[ProfileKey] == Str(profile.value)
  {
    if hardware.Object? && ProfileKey in hardware.fields && hardware.fields[ProfileKey].Str?
    then Some(hardware.fields[ProfileKey].s)
    else None
  }

  /** Why get_update_patches raises. */
  datatype PatchError =
    | BadCapabilities(cause: CapabilitiesError)  // the ValueError of capabilities_to_dict
    | NoProfile                                  // node_info['hardware'] has no string 'profile'

  function OptionalCount(present: bool): nat
  {
    if present then 1 else 0
  }

  /**
   * get_update_patches: nothing to do without 'hardware'; otherwise the
   * configdrive patch, the capabilities patch with the profile replaced,
   * then a raid patch and a bios patch when node_info holds them, all 'add'.
   */
  function GetUpdatePatches(node: Node, nodeInfo: map<string, Value>): (r: Result<seq<Patch>, PatchError>)
    ensures HardwareKey !in nodeInfo ==> r == Ok([])
    ensures HardwareKey in nodeInfo && CapabilitiesToDict(node.capabilities).Err? ==>
      r == Err(BadCapabilities(CapabilitiesToDict(node.capabilities).error))
    ensures HardwareKey in nodeInfo && CapabilitiesToDict(node.capabilities).Ok? && ProfileOf(nodeInfo[HardwareKey]).None? ==>
      r == Err(NoProfile)
    ensures r.Err? <==>
      HardwareKey in nodeInfo &&
      (CapabilitiesToDict(node.capabilities).Err? || ProfileOf(nodeInfo[HardwareKey]).None?)
    ensures r.Ok? && HardwareKey in nodeInfo ==>
      && |r.value| == 2 + OptionalCount(TargetRaidKey in nodeInfo) + OptionalCount(BiosSettingsKey in nodeInfo)
      && (forall i :: 0 <= i < |r.value| ==> r.value[i].op == AddOp)
      && r.value[0] == Patch(AddOp, ConfigDrivePath, Object(map[HardwareKey := nodeInfo[HardwareKey]]))
      && r.value[1].path == CapabilitiesPath
      && (TargetRaidKey in nodeInfo ==> r.value[2] == Patch(AddOp, TargetRaidPath, nodeInfo[TargetRaidKey]))
      && (BiosSettingsKey in nodeInfo ==>
            r.value[|r.value| - 1] == Patch(AddOp, BiosSettingsPath, nodeInfo[BiosSettingsKey]))
    ensures r.Ok? && HardwareKey in nodeInfo ==>
      var profile := ProfileOf(nodeInfo[HardwareKey]).value;
      var wanted := CapabilitiesToDict(node.capabilities).value[ProfileKey := profile];
      exists items :: IsItemsOf(items, wanted) && r.value[1].value == Str(DictToCapabilities(items))
  {
    if HardwareKey !in nodeInfo then Ok([])
    else
      match ParseEntries(node.capabilities)
      case Err(e) => Err(BadCapabilities(e))
      case Ok(pairs) =>
        match ProfileOf(nodeInfo[HardwareKey])
        case None => Err(NoProfile)
        case Some(profile) => Ok(PatchList(nodeInfo, CapabilitiesPatch(pairs, profile)))
  }

  /** The capabilities patch: the node's capabilities with 'profile' set, in some item order. */
  function CapabilitiesPatch(pairs: seq<Pair>, profile: string): (p: Patch)
    ensures p.op == AddOp && p.path == CapabilitiesPath
    ensures exists items :: IsItemsOf(items, ToMap(pairs)[ProfileKey := profile]) && p.value == Str(DictToCapabilities(items))
  {
    var items := DictItems(pairs + [(ProfileKey, profile)]);
    ToMapSnoc(pairs, (ProfileKey, profile));
    Patch(AddOp, CapabilitiesPath, Str(DictToCapabilities(items)))
  }

  /** The patches in the order they are appended, given the capabilities patch. */
  function PatchList(nodeInfo: map<string, Value>, capabilities: Patch): (ps: seq<Patch>)
    requires HardwareKey in nodeInfo && capabilities.op == AddOp
    ensures |ps| == 2 + OptionalCount(TargetRaidKey in nodeInfo) + OptionalCount(BiosSettingsKey in nodeInfo)
    ensures forall i :: 0 <= i < |ps| ==> ps[i].op == AddOp
    ensures ps[0] == Patch(AddOp, ConfigDrivePath, Object(map[HardwareKey := nodeInfo[HardwareKey]]))
    ensures ps[1] == capabilities
    ensures TargetRaidKey in nodeInfo ==> ps[2] == Patch(AddOp, TargetRaidPath, nodeInfo[TargetRaidKey])
    ensures BiosSettingsKey in nodeInfo ==> ps[|ps| - 1] == Patch(AddOp, BiosSettingsPath, nodeInfo[BiosSettingsKey])
  {
    var configDrive := Patch(AddOp, ConfigDrivePath, Object(map[HardwareKey := nodeInfo[HardwareKey]]));
    var raid := if TargetRaidKey in nodeInfo then [Patch(AddOp, TargetRaidPath, nodeInfo[TargetRaidKey])] else [];
    var bios := if BiosSettingsKey in nodeInfo then [Patch(AddOp, BiosSettingsPath, nodeInfo[BiosSettingsKey])] else [];
    [configDrive, capabilities] + raid + bios
  }

  /**
   * The capabilities patch keeps every capability of the node except
   * 'profile', which becomes the matched profile: read back, its value is
   * the old dict with only 'profile' replaced.
   */
  lemma CapabilitiesPatchReplacesProfile(node: Node, nodeInfo: map<string, Value>)
    requires HardwareKey in nodeInfo && GetUpdatePatches(node, nodeInfo).Ok?
    requires ',' !in ProfileOf(nodeInfo[HardwareKey]).value
    ensures GetUpdatePatches(node, nodeInfo).value[1].value.Str?
    ensures
      var before := CapabilitiesToDict(node.capabilities).value;
      var profile := ProfileOf(nodeInfo[HardwareKey]).value;
      CapabilitiesToDict(Some(GetUpdatePatches(node, nodeInfo).value[1].value.s)) == Ok(before[ProfileKey := profile])
  {
    var pairs := ParseEntries(node.capabilities).value;
    var profile := ProfileOf(nodeInfo[HardwareKey]).value;
    assert GetUpdatePatches(node, nodeInfo).value[1] == CapabilitiesPatch(pairs, profile);
    CapabilitiesPatchRoundTrip(pairs, profile);
  }

  /** The key 'profile' holds neither ',' nor ':'. */
  lemma ProfileKeyIsPlain()
    ensures ',' !in ProfileKey && ':' !in ProfileKey
  {
    forall i | 0 <= i < |ProfileKey| ensures ProfileKey[i] != ',' && ProfileKey[i] != ':' {
      assert ProfileKey[i] in {'p', 'r', 'o', 'f', 'i', 'l', 'e'};
    }
  }

  /** Read back, the capabilities patch gives the parsed dict with 'profile' replaced. */
  lemma CapabilitiesPatchRoundTrip(pairs: seq<Pair>, profile: string)
    requires forall i :: 0 <= i < |pairs| ==> Serialisable(pairs[i])
    requires ',' !in profile
    ensures CapabilitiesPatch(pairs, profile).value.Str?
    ensures CapabilitiesToDict(Some(CapabilitiesPatch(pairs, profile).value.s)) == Ok(ToMap(pairs)[ProfileKey := profile])
  {
    var wanted := ToMap(pairs)[ProfileKey := profile];
    var patch := CapabilitiesPatch(pairs, profile);
    assert exists items :: IsItemsOf(items, wanted) && patch.value == Str(DictToCapabilities(items));
    var items :| IsItemsOf(items, wanted) && CapabilitiesPatch(pairs, profile).value == Str(DictToCapabilities(items));
    ToMapSerialisable(pairs);
    ProfileKeyIsPlain();
    SerialisableUpdate(ToMap(pairs), ProfileKey, profile);
    RoundTrip(wanted, items);
  }

  // ---------------------------------------------------------------------
  // match(node, node_info)

  /** What a call into the state library, Swift or Ironic does: return, or raise with a message. */
  datatype Effect = Completes | Raises(message: string)

  /** What sobj.find_match(facts) does: raise, or return (profile, data). */
  datatype Found = NoMatch(message: string) | Found(profile: string, data: map<string, Value>)

  /** The behaviour of the external calls made while matching one node. */
  datatype StateOracle = StateOracle(
    construct: Effect,  // state.State(lockname=...)
    load: Effect,       // sobj.load(configdir)
    download: Effect,   // fetching the node's facts from Swift inside get_facts
    findMatch: Found)   // sobj.find_match(facts)

  /** The side effects this code has on the state file and on Ironic, in order. */
  datatype Event =
    | StateSaved
    | StateUnlocked
    | StateCopied
    | StateRestored
    | UpdateRequested(uuid: string, patches: seq<Patch>)
    | UpdateFailed(uuid: string)

  predicate IsLockEvent(e: Event)
  {
    e == StateSaved || e == StateUnlocked
  }

  predicate IsUpdateEvent(e: Event)
  {
    e.UpdateRequested? || e.UpdateFailed?
  }

  /** How match returns: normally, by raising one of the two errors, or by SystemExit from get_facts. */
  datatype MatchResult = Matched | Raised(error: Exc.AhcError) | Exit(message: string)

  /** Loading failed: State() or sobj.load() raised. */
  predicate LoadFails(oracle: StateOracle)
  {
    oracle.construct.Raises? || oracle.load.Raises?
  }

  /**
   * The reshaping match does once find_match returned (profile, data):
   * 'profile' is stamped into data, 'logical_disks' moves under
   * node_info['target_raid_configuration'], 'bios_settings' moves to
   * node_info['bios_settings'], and what is left becomes node_info['hardware'].
   */
  function Reshape(info: map<string, Value>, profile: string, data: map<string, Value>): (after: map<string, Value>)
    ensures HardwareKey in after && after[HardwareKey].Object?
    ensures ProfileOf(after[HardwareKey]) == Some(profile)
    ensures var hardware := after[HardwareKey].fields;
      && LogicalDisksKey !in hardware
      && BiosSettingsKey !in hardware
      && hardware.Keys == data.Keys + {ProfileKey} - {LogicalDisksKey, BiosSettingsKey}
      && forall k :: k in data && k != ProfileKey && k != LogicalDisksKey && k != BiosSettingsKey ==> hardware[k] == data[k]
    ensures LogicalDisksKey in data ==>
      TargetRaidKey in after && after[TargetRaidKey] == Object(map[LogicalDisksKey := data[LogicalDisksKey]])
    ensures BiosSettingsKey in data ==>
      BiosSettingsKey in after && after[BiosSettingsKey] == data[BiosSettingsKey]
    ensures after.Keys == info.Keys + {HardwareKey}
      + (if LogicalDisksKey in data then {TargetRaidKey} else {})
      + (if BiosSettingsKey in data then {BiosSettingsKey} else {})
    ensures forall k ::
      (&& k in info && k != HardwareKey
       && (k == TargetRaidKey ==> LogicalDisksKey !in data)
       && (k == BiosSettingsKey ==> BiosSettingsKey !in data))
      ==> after[k] == info[k]
  {
    var stamped := data[ProfileKey := Str(profile)];
    var withRaid :=
      if LogicalDisksKey in stamped
      then info[TargetRaidKey := Object(map[LogicalDisksKey := stamped[LogicalDisksKey]])]
      else info;
    var withBios :=
      if BiosSettingsKey in stamped
      then withRaid[BiosSettingsKey := stamped[BiosSettingsKey]]
      else withRaid;
    withBios[HardwareKey := Object(stamped - {LogicalDisksKey, BiosSettingsKey})]
  }

  /**
   * What match does, as (how it returns, node_info afterwards, calls on
   * the state object). Once loading succeeded, save() then unlock() run
   * exactly once whatever follows; if loading failed, save() is never
   * called and unlock() only when the state object had been built. Only
   * a successful match touches node_info.
   */
  function MatchSpec(node: Node, info: map<string, Value>, oracle: StateOracle, configDir: string)
    : (r: (MatchResult, map<string, Value>, seq<Event>))
    ensures r.0.Raised? && r.0.error.LoadFailedError? <==> LoadFails(oracle)
    ensures LoadFails(oracle) ==>
      r.0 == Raised(Exc.LoadFailed(if oracle.construct.Raises? then oracle.construct.message else oracle.load.message,
                                   configDir))
    ensures LoadFails(oracle) ==> r.2 == (if oracle.construct.Completes? then [StateUnlocked] else [])
    ensures !LoadFails(oracle) ==> r.2 == [StateSaved, StateUnlocked]
    ensures r.0.Exit? <==> !LoadFails(oracle) && SwiftObjectKey !in node.extra
    ensures r.0.Exit? ==> r.0.message == NoIntrospectionMessage
    ensures !LoadFails(oracle) && SwiftObjectKey in node.extra && oracle.download.Raises? ==>
      r.0 == Raised(Exc.MatchFailed(oracle.download.message, node.uuid))
    ensures !LoadFails(oracle) && SwiftObjectKey in node.extra && oracle.download.Completes? && oracle.findMatch.NoMatch? ==>
      r.0 == Raised(Exc.MatchFailed(oracle.findMatch.message, node.uuid))
    ensures r.0.Matched? <==>
      !LoadFails(oracle) && SwiftObjectKey in node.extra && oracle.download.Completes? && oracle.findMatch.Found?
    ensures r.0.Matched? ==> r.1 == Reshape(info, oracle.findMatch.profile, oracle.findMatch.data)
    ensures !r.0.Matched? ==> r.1 == info
  {
    if oracle.construct.Raises? then
      (Raised(Exc.LoadFailed(oracle.construct.message, configDir)), info, [])
    else if oracle.load.Raises? then
      (Raised(Exc.LoadFailed(oracle.load.message, configDir)), info, [StateUnlocked])
    else
      var closing := [StateSaved, StateUnlocked];
      if SwiftObjectKey !in node.extra then (Exit(NoIntrospectionMessage), info, closing)
      else if oracle.download.Raises? then
        (Raised(Exc.MatchFailed(oracle.download.message, node.uuid)), info, closing)
      else
        match oracle.findMatch
        case NoMatch(m) => (Raised(Exc.MatchFailed(m, node.uuid)), info, closing)
        case Found(profile, data) => (Matched, Reshape(info, profile, data), closing)
  }

  /** A node_info dict, filled in place by match. */
  class NodeInfo {
    var entries: map<string, Value>

    constructor ()
      ensures entries == map[]
    {
      entries := map[];
    }
  }

  /** The side effects performed so far. */
  class Journal {
    var events: seq<Event>

    constructor ()
      ensures events == []
    {
      events := [];
    }
  }

  /** match(node, node_info): fills nodeInfo in place and records the calls on the state object. */
  method Match(node: Node, nodeInfo: NodeInfo, oracle: StateOracle, configDir: string, journal: Journal)
      returns (result: MatchResult)
    modifies nodeInfo, journal
    ensures var (r, after, calls) := MatchSpec(node, old(nodeInfo.entries), oracle, configDir);
      result == r && nodeInfo.entries == after && journal.events == old(journal.events) + calls
  {
    var constructed := false;
    var loadError: Option<string> := None;
    match oracle.construct {
      case Raises(m) =>
        loadError := Some(m);
      case Completes =>
        constructed := true;
        if oracle.load.Raises? {
          loadError := Some(oracle.load.message);
        }
    }
    if loadError.Some? {
      if constructed {
        journal.events := journal.events + [StateUnlocked];
      }
      return Raised(Exc.LoadFailed(loadError.value, configDir));
    }

    if SwiftObjectKey !in node.extra {
      result := Exit(NoIntrospectionMessage);
    } else if oracle.download.Raises? {
      result := Raised(Exc.MatchFailed(oracle.download.message, node.uuid));
    } else if oracle.findMatch.NoMatch? {
      result := Raised(Exc.MatchFailed(oracle.findMatch.message, node.uuid));
    } else {
      var data := oracle.findMatch.data[ProfileKey := Str(oracle.findMatch.profile)];
      ghost var stamped := data;
      if LogicalDisksKey in data {
        nodeInfo.entries := nodeInfo.entries[TargetRaidKey := Object(map[LogicalDisksKey := data[LogicalDisksKey]])];
        data := data - {LogicalDisksKey};
      }
      if BiosSettingsKey in data {
        nodeInfo.entries := nodeInfo.entries[BiosSettingsKey := data[BiosSettingsKey]];
        data := data - {BiosSettingsKey};
      }
      assert data == stamped - {LogicalDisksKey, BiosSettingsKey};
      nodeInfo.entries := nodeInfo.entries[HardwareKey := Object(data)];
      result := Matched;
    }
    journal.events := journal.events + [StateSaved, StateUnlocked];
  }

  // ---------------------------------------------------------------------
  // main(): match every node, restore the state file, update the matched nodes

  /** An exception main does not catch. */
  datatype Crash =
    | PatchFailed(cause: PatchError)  // get_update_patches raised
    | RestoreFailed(message: string)  // _restore_state raised

  /** How main ends: normally, through sys.exit, or with an uncaught exception. */
  datatype MainOutcome = Completed | Exited(message: Option<string>) | Crashed(crash: Crash)

  /**
   * What one turn of main's matching loop sees of a node: how match
   * returned, the calls it made on the state object, and what
   * get_update_patches gives on the node_info match filled in from {}.
   */
  datatype Turn = Turn(result: MatchResult, calls: seq<Event>, patches: Result<seq<Patch>, PatchError>)

  /** The turn of a node, from the behaviour of match and get_update_patches. */
  function NodeTurn(node: Node, oracle: StateOracle, configDir: string): (t: Turn)
    ensures forall k :: 0 <= k < |t.calls| ==> IsLockEvent(t.calls[k])
    ensures t.result.Matched? ==> (t.patches.Ok? <==> CapabilitiesToDict(node.capabilities).Ok?)
  {
    var (result, info, calls) := MatchSpec(node, map[], oracle, configDir);
    Turn(result, calls, GetUpdatePatches(node, info))
  }

  /**
   * The profile find_match returns for a node is the one written into its
   * capabilities: after a match, when the capabilities parse, the patches
   * are built and their capabilities patch reads back as the node's old
   * capabilities with 'profile' set to the matched profile.
   */
  lemma MatchedProfileReachesCapabilities(node: Node, oracle: StateOracle, configDir: string)
    requires MatchSpec(node, map[], oracle, configDir).0.Matched?
    requires CapabilitiesToDict(node.capabilities).Ok?
    requires ',' !in oracle.findMatch.profile
    ensures NodeTurn(node, oracle, configDir).patches.Ok?
    ensures NodeTurn(node, oracle, configDir).patches.value[1].value.Str?
    ensures CapabilitiesToDict(Some(NodeTurn(node, oracle, configDir).patches.value[1].value.s))
      == Ok(CapabilitiesToDict(node.capabilities).value[ProfileKey := oracle.findMatch.profile])
  {
    var info := MatchSpec(node, map[], oracle, configDir).1;
    CapabilitiesPatchReplacesProfile(node, info);
  }

  /** The turns of all nodes, position by position: none of them does more than save and unlock the state. */
  function Turns(nodes: seq<Node>, oracles: seq<StateOracle>, configDir: string): (turns: seq<Turn>)
    requires |nodes| == |oracles|
    ensures |turns| == |nodes|
    ensures forall i :: 0 <= i < |nodes| ==> turns[i] == NodeTurn(nodes[i], oracles[i], configDir)
    ensures LockCalls(turns)
  {
    seq(|nodes|, i requires 0 <= i < |nodes| => NodeTurn(nodes[i], oracles[i], configDir))
  }

  /** The node raised MatchFailedError: it goes to failed_nodes and the loop goes on. */
  predicate Failed(t: Turn)
  {
    t.result.Raised? && t.result.error.MatchFailedError?
  }

  /**
   * The loop goes on after this turn: the node raised MatchFailedError, or
   * it matched and get_update_patches returned its patches.
   */
  predicate GoesOn(t: Turn)
  {
    Failed(t) || (t.result.Matched? && t.patches.Ok?)
  }

  /** Where the matching loop stands: still going, or stopped for good. */
  datatype Progress =
    | Going(failed: set<nat>, patches: map<string, seq<Patch>>, events: seq<Event>)
    | Stopped(outcome: MainOutcome, events: seq<Event>)

  /** One turn of the matching loop, for the node at position i. */
  function Step(uuid: string, i: nat, t: Turn, failed: set<nat>, patches: map<string, seq<Patch>>,
                events: seq<Event>): (p: Progress)
    ensures p.events == events + t.calls
    ensures p.Going? <==> GoesOn(t)
    ensures p.Stopped? ==> p.outcome != Completed
    ensures t.result.Exit? ==> p.Stopped? && p.outcome == Exited(Some(t.result.message))
    ensures t.result.Raised? && t.result.error.LoadFailedError? ==> p.Stopped? && p.outcome == Exited(None)
    ensures t.result.Matched? && t.patches.Err? ==> p.Stopped? && p.outcome == Crashed(PatchFailed(t.patches.error))
    ensures p.Going? ==> p.failed == if Failed(t) then failed + {i} else failed
    ensures p.Going? && !Failed(t) ==> t.patches.Ok? && p.patches == patches[uuid := t.patches.value]
    ensures p.Going? && Failed(t) ==> p.patches == patches
  {
    var events' := events + t.calls;
    match t.result
    case Exit(m) => Stopped(Exited(Some(m)), events')
    case Raised(e) =>
      if e.LoadFailedError? then Stopped(Exited(None), events')
      else Going(failed + {i}, patches, events')
    case Matched =>
      match t.patches
      case Err(e) => Stopped(Crashed(PatchFailed(e)), events')
      case Ok(ps) => Going(failed, patches[uuid := ps], events')
  }

  /**
   * The matching loop over the first n nodes. While it goes on, only
   * positions already visited are failed, and every other visited node has
   * its patches.
   */
  function MatchAll(nodes: seq<Node>, turns: seq<Turn>, n: nat): (p: Progress)
    requires n <= |nodes| == |turns|
    ensures p.Going? ==> forall i :: i in p.failed ==> i < n
    ensures p.Going? ==> forall i :: 0 <= i < n && i !in p.failed ==> nodes[i].uuid in p.patches
    ensures p.Stopped? ==> p.outcome != Completed
  {
    if n == 0 then Going({}, map[], [])
    else
      match MatchAll(nodes, turns, n - 1)
      case Stopped(outcome, events) => Stopped(outcome, events)
      case Going(failed, patches, events) => Step(nodes[n - 1].uuid, n - 1, turns[n - 1], failed, patches, events)
  }

  /** One turn of the update loop: failed nodes are skipped; a failed update is only logged. */
  function UpdateNode(node: Node, skipped: bool, patches: map<string, seq<Patch>>, update: Effect): seq<Event>
    requires !skipped ==> node.uuid in patches
  {
    if skipped then []
    else [UpdateRequested(node.uuid, patches[node.uuid])] + (if update.Raises? then [UpdateFailed(node.uuid)] else [])
  }

  /** The update loop over the first n nodes. */
  function UpdateAll(nodes: seq<Node>, failed: set<nat>, patches: map<string, seq<Patch>>,
                     updates: seq<Effect>, n: nat): seq<Event>
    requires n <= |nodes| == |updates|
    requires forall i :: 0 <= i < |nodes| && i !in failed ==> nodes[i].uuid in patches
  {
    if n == 0 then []
    else UpdateAll(nodes, failed, patches, updates, n - 1) + UpdateNode(nodes[n - 1], n - 1 in failed, patches, updates[n - 1])
  }

  /**
   * What main does once the matching loop is over: stop if it stopped;
   * otherwise restore the state file and run the update loop.
   */
  function Finish(nodes: seq<Node>, p: Progress, restore: Effect, updates: seq<Effect>): (r: (MainOutcome, seq<Event>))
    requires |nodes| == |updates|
    requires p.Going? ==> forall i :: 0 <= i < |nodes| && i !in p.failed ==> nodes[i].uuid in p.patches
    requires p.Stopped? ==> p.outcome != Completed
    ensures r.0 == Completed <==> p.Going? && restore.Completes?
  {
    match p
    case Stopped(outcome, events) => (outcome, events)
    case Going(failed, patches, events) =>
      if restore.Raises? then (Crashed(RestoreFailed(restore.message)), events)
      else (Completed, events + [StateRestored] + UpdateAll(nodes, failed, patches, updates, |nodes|))
  }

  /**
   * main's behaviour from the copy of the state file on, as (how it ends,
   * the side effects in order). A failed copy exits at once.
   */
  function Run(nodes: seq<Node>, configDir: string, copy: Effect, oracles: seq<StateOracle>,
               restore: Effect, updates: seq<Effect>): (r: (MainOutcome, seq<Event>))
    requires |nodes| == |oracles| == |updates|
    ensures copy.Raises? ==> r == (Exited(None), [])
    ensures copy.Completes? ==> |r.1| > 0 && r.1[0] == StateCopied
    ensures r.0 == Completed ==>
      copy.Completes? && restore.Completes? && MatchAll(nodes, Turns(nodes, oracles, configDir), |nodes|).Going?
  {
    if copy.Raises? then (Exited(None), [])
    else
      var (outcome, events) := Finish(nodes, MatchAll(nodes, Turns(nodes, oracles, configDir), |nodes|), restore, updates);
      (outcome, [StateCopied] + events)
  }

  lemma MatchAllStep(nodes: seq<Node>, turns: seq<Turn>, i: nat)
    requires i < |nodes| == |turns|
    requires MatchAll(nodes, turns, i).Going?
    ensures var p := MatchAll(nodes, turns, i);
      MatchAll(nodes, turns, i + 1) == Step(nodes[i].uuid, i, turns[i], p.failed, p.patches, p.events)
  {
  }

  /** While the matching loop goes on, the failed positions are exactly the nodes whose match raised MatchFailedError. */
  lemma {:induction false} FailedAreMatchFailures(nodes: seq<Node>, turns: seq<Turn>, n: nat)
    requires n <= |nodes| == |turns|
    requires MatchAll(nodes, turns, n).Going?
    ensures forall i :: 0 <= i < n ==> (i in MatchAll(nodes, turns, n).failed <==> Failed(turns[i]))
  {
    if n > 0 {
      FailedAreMatchFailures(nodes, turns, n - 1);
    }
  }

  /** Once the matching loop stops, it stays stopped with the same outcome and events. */
  lemma {:induction false} StoppedPersists(nodes: seq<Node>, turns: seq<Turn>, k: nat, n: nat)
    requires k <= n <= |nodes| == |turns|
    requires MatchAll(nodes, turns, k).Stopped?
    ensures MatchAll(nodes, turns, n) == MatchAll(nodes, turns, k)
    decreases n
  {
    if n > k {
      StoppedPersists(nodes, turns, k, n - 1);
    }
  }

  /** The matching loop over the first n nodes goes on exactly when each of their turns lets it go on. */
  lemma {:induction false} GoingIff(nodes: seq<Node>, turns: seq<Turn>, n: nat)
    requires n <= |nodes| == |turns|
    ensures MatchAll(nodes, turns, n).Going? <==> forall i :: 0 <= i < n ==> GoesOn(turns[i])
  {
    if n > 0 {
      GoingIff(nodes, turns, n - 1);
    }
  }

  /** One turn of main's matching loop: match the node, then build its patches. */
  method MatchTurn(journal: Journal, node: Node, i: nat, oracle: StateOracle, configDir: string,
                   failed: set<nat>, patches: map<string, seq<Patch>>, ghost start: seq<Event>, ghost trace: seq<Event>)
      returns (stop: Option<MainOutcome>, failed': set<nat>, patches': map<string, seq<Patch>>)
    requires journal.events == start + trace
    modifies journal
    ensures var p := Step(node.uuid, i, NodeTurn(node, oracle, configDir), failed, patches, trace);
      && journal.events == start + p.events
      && (stop.Some? <==> p.Stopped?)
      && (p.Stopped? ==> stop.value == p.outcome)
      && (p.Going? ==> failed' == p.failed && patches' == p.patches)
  {
    failed', patches' := failed, patches;
    var nodeInfo := new NodeInfo();
    var result := Match(node, nodeInfo, oracle, configDir, journal);
    match result {
      case Exit(m) =>
        stop := Some(Exited(Some(m)));
      case Raised(e) =>
        if e.LoadFailedError? {
          stop := Some(Exited(None));
        } else {
          stop := None;
          failed' := failed + {i};
        }
      case Matched =>
        var p := GetUpdatePatches(node, nodeInfo.entries);
        if p.Err? {
          stop := Some(Crashed(PatchFailed(p.error)));
        } else {
          stop := None;
          patches' := patches[node.uuid := p.value];
        }
    }
  }

  /**
   * main's first loop: matches each node in turn, collecting the failed
   * positions and the patches of the others, until a node stops the run.
   */
  method MatchNodes(journal: Journal, nodes: seq<Node>, configDir: string, oracles: seq<StateOracle>)
      returns (stop: Option<MainOutcome>, failed: set<nat>, patches: map<string, seq<Patch>>)
    requires |nodes| == |oracles|
    modifies journal
    ensures var p := MatchAll(nodes, Turns(nodes, oracles, configDir), |nodes|);
      && journal.events == old(journal.events) + p.events
      && (stop.Some? <==> p.Stopped?)
      && (p.Stopped? ==> stop.value == p.outcome)
      && (p.Going? ==> failed == p.failed && patches == p.patches)
  {
    ghost var start := journal.events;
    ghost var turns := Turns(nodes, oracles, configDir);
    stop, failed, patches := None, {}, map[];
    var i := 0;
    while i < |nodes| && stop.None?
      invariant 0 <= i <= |nodes|
      invariant var p := MatchAll(nodes, turns, i);
        && journal.events == start + p.events
        && (stop.Some? <==> p.Stopped?)
        && (p.Stopped? ==> stop.value == p.outcome)
        && (p.Going? ==> failed == p.failed && patches == p.patches)
    {
      ghost var p := MatchAll(nodes, turns, i);
      stop, failed, patches := MatchTurn(journal, nodes[i], i, oracles[i], configDir, failed, patches, start, p.events);
      MatchAllStep(nodes, turns, i);
      i := i + 1;
    }
    if stop.Some? {
      StoppedPersists(nodes, turns, i, |nodes|);
    }
  }

  /** main's second loop: updates every node not in failed, going on after a failed update. */
  method UpdateNodes(journal: Journal, nodes: seq<Node>, failed: set<nat>, patches: map<string, seq<Patch>>,
                     updates: seq<Effect>)
    requires |nodes| == |updates|
    requires forall i :: 0 <= i < |nodes| && i !in failed ==> nodes[i].uuid in patches
    modifies journal
    ensures journal.events == old(journal.events) + UpdateAll(nodes, failed, patches, updates, |nodes|)
  {
    var j := 0;
    while j < |nodes|
      invariant 0 <= j <= |nodes|
      invariant journal.events == old(journal.events) + UpdateAll(nodes, failed, patches, updates, j)
    {
      ghost var before := journal.events;
      ghost var turn := UpdateNode(nodes[j], j in failed, patches, updates[j]);
      if j !in failed {
        journal.events := journal.events + [UpdateRequested(nodes[j].uuid, patches[nodes[j].uuid])];
        if updates[j].Raises? {
          journal.events := journal.events + [UpdateFailed(nodes[j].uuid)];
        }
      }
      assert journal.events == before + turn;
      assert UpdateAll(nodes, failed, patches, updates, j + 1) == UpdateAll(nodes, failed, patches, updates, j) + turn;
      SeqAssoc(old(journal.events), UpdateAll(nodes, failed, patches, updates, j), turn);
      j := j + 1;
    }
  }

  /** main after a successful copy: match every node, restore the state file, update the matched nodes. */
  method MatchRestoreUpdate(journal: Journal, nodes: seq<Node>, configDir: string,
                            oracles: seq<StateOracle>, restore: Effect, updates: seq<Effect>)
      returns (outcome: MainOutcome)
    requires |nodes| == |oracles| == |updates|
    modifies journal
    ensures var (o, events) := Finish(nodes, MatchAll(nodes, Turns(nodes, oracles, configDir), |nodes|), restore, updates);
      outcome == o && journal.events == old(journal.events) + events
  {
    ghost var before := journal.events;
    ghost var p := MatchAll(nodes, Turns(nodes, oracles, configDir), |nodes|);
    var stop, failed, patches := MatchNodes(journal, nodes, configDir, oracles);
    if stop.Some? {
      return stop.value;
    }
    if restore.Raises? {
      return Crashed(RestoreFailed(restore.message));
    }
    journal.events := journal.events + [StateRestored];
    UpdateNodes(journal, nodes, failed, patches, updates);
    outcome := Completed;
    SeqAssoc(before, p.events + [StateRestored], UpdateAll(nodes, failed, patches, updates, |nodes|));
    SeqAssoc(before, p.events, [StateRestored]);
  }

  /**
   * main: copies the state file, matches every node, restores the state
   * file and updates each matched node with its patches.
   */
  method MatchAndUpdate(journal: Journal, nodes: seq<Node>, configDir: string, copy: Effect,
                        oracles: seq<StateOracle>, restore: Effect, updates: seq<Effect>)
      returns (outcome: MainOutcome)
    requires |nodes| == |oracles| == |updates|
    modifies journal
    ensures var (o, events) := Run(nodes, configDir, copy, oracles, restore, updates);
      outcome == o && journal.events == old(journal.events) + events
  {
    if copy.Raises? {
      return Exited(None);
    }
    ghost var before := journal.events;
    journal.events := journal.events + [StateCopied];
    outcome := MatchRestoreUpdate(journal, nodes, configDir, oracles, restore, updates);
    ghost var tail := Finish(nodes, MatchAll(nodes, Turns(nodes, oracles, configDir), |nodes|), restore, updates).1;
    assert journal.events == (before + [StateCopied]) + tail;
    SeqAssoc(before, [StateCopied], tail);
  }

  lemma SeqAssoc<T>(a: seq<T>, b: seq<T>, c: seq<T>)
    ensures (a + b) + c == a + (b + c)
  {
  }

  // ---------------------------------------------------------------------
  // What main guarantees

  /** The node's match raised MatchFailedError. */
  predicate NodeFailed(node: Node, oracle: StateOracle, configDir: string)
  {
    Failed(NodeTurn(node, oracle, configDir))
  }

  /** get_update_patches on the node_info that match fills in from {}. */
  function NodePatches(node: Node, oracle: StateOracle, configDir: string): Result<seq<Patch>, PatchError>
  {
    NodeTurn(node, oracle, configDir).patches
  }

  /** Every turn only saves and unlocks the state. */
  predicate LockCalls(turns: seq<Turn>)
  {
    forall i, k :: 0 <= i < |turns| && 0 <= k < |turns[i].calls| ==> IsLockEvent(turns[i].calls[k])
  }

  /** The patches requested for one uuid, in order. */
  function UpdatesOf(events: seq<Event>, uuid: string): seq<seq<Patch>>
  {
    if events == [] then []
    else
      (if events[0].UpdateRequested? && events[0].uuid == uuid then [events[0].patches] else [])
      + UpdatesOf(events[1..], uuid)
  }

  /** The update requests among the events, in order. */
  function RequestsOf(events: seq<Event>): seq<Event>
  {
    if events == [] then []
    else (if events[0].UpdateRequested? then [events[0]] else []) + RequestsOf(events[1..])
  }

  /** Filtering the update requests of one uuid distributes over concatenation. */
  lemma {:induction false} UpdatesOfConcat(a: seq<Event>, b: seq<Event>, uuid: string)
    ensures UpdatesOf(a + b, uuid) == UpdatesOf(a, uuid) + UpdatesOf(b, uuid)
  {
    if a != [] {
      assert (a + b)[0] == a[0] && (a + b)[1..] == a[1..] + b;
      UpdatesOfConcat(a[1..], b, uuid);
      var x := if a[0].UpdateRequested? && a[0].uuid == uuid then [a[0].patches] else [];
      SeqAssoc(x, UpdatesOf(a[1..], uuid), UpdatesOf(b, uuid));
    } else {
      assert a + b == b;
    }
  }

  /** Filtering the update requests distributes over concatenation. */
  lemma {:induction false} RequestsOfConcat(a: seq<Event>, b: seq<Event>)
    ensures RequestsOf(a + b) == RequestsOf(a) + RequestsOf(b)
  {
    if a != [] {
      assert (a + b)[0] == a[0] && (a + b)[1..] == a[1..] + b;
      RequestsOfConcat(a[1..], b);
      var y := if a[0].UpdateRequested? then [a[0]] else [];
      SeqAssoc(y, RequestsOf(a[1..]), RequestsOf(b));
    } else {
      assert a + b == b;
    }
  }

  lemma {:induction false} NoRequestsAmong(events: seq<Event>, uuid: string)
    requires forall i :: 0 <= i < |events| ==> !events[i].UpdateRequested?
    ensures UpdatesOf(events, uuid) == [] && RequestsOf(events) == []
  {
    if events != [] {
      NoRequestsAmong(events[1..], uuid);
    }
  }

  /** Ironic gives every node its own uuid. */
  predicate DistinctUuids(nodes: seq<Node>)
  {
    forall i, j :: 0 <= i < j < |nodes| ==> nodes[i].uuid != nodes[j].uuid
  }

  /** The matching loop only saves and unlocks the state. */
  lemma {:induction false} MatchAllOnlyLocks(nodes: seq<Node>, turns: seq<Turn>, n: nat)
    requires n <= |nodes| == |turns| && LockCalls(turns)
    ensures forall i :: 0 <= i < |MatchAll(nodes, turns, n).events| ==> IsLockEvent(MatchAll(nodes, turns, n).events[i])
  {
    if n > 0 {
      MatchAllOnlyLocks(nodes, turns, n - 1);
      var before := MatchAll(nodes, turns, n - 1);
      if before.Going? {
        MatchAllStep(nodes, turns, n - 1);
        var events := before.events + turns[n - 1].calls;
        assert forall i :: 0 <= i < |before.events| ==> events[i] == before.events[i];
        assert forall i :: |before.events| <= i < |events| ==> events[i] == turns[n - 1].calls[i - |before.events|];
        assert MatchAll(nodes, turns, n).events == events;
      } else {
        assert MatchAll(nodes, turns, n) == before;
      }
    }
  }

  /** The update loop only requests updates and logs their failures. */
  lemma {:induction false} UpdateAllOnlyUpdates(nodes: seq<Node>, failed: set<nat>, patches: map<string, seq<Patch>>,
                                                 updates: seq<Effect>, n: nat)
    requires n <= |nodes| == |updates|
    requires forall i :: 0 <= i < |nodes| && i !in failed ==> nodes[i].uuid in patches
    ensures forall i :: 0 <= i < |UpdateAll(nodes, failed, patches, updates, n)| ==>
      IsUpdateEvent(UpdateAll(nodes, failed, patches, updates, n)[i])
  {
    if n > 0 {
      UpdateAllOnlyUpdates(nodes, failed, patches, updates, n - 1);
      var before := UpdateAll(nodes, failed, patches, updates, n - 1);
      var turn := UpdateNode(nodes[n - 1], n - 1 in failed, patches, updates[n - 1]);
      var events := before + turn;
      assert forall i :: 0 <= i < |turn| ==> IsUpdateEvent(turn[i]);
      assert forall i :: 0 <= i < |before| ==> events[i] == before[i];
      assert forall i :: |before| <= i < |events| ==> events[i] == turn[i - |before|];
      assert UpdateAll(nodes, failed, patches, updates, n) == events;
    }
  }

  /**
   * With distinct uuids, a node that matched is, in the patches dict,
   * mapped to the patches of its own turn.
   */
  lemma {:induction false} MatchAllPatches(nodes: seq<Node>, turns: seq<Turn>, n: nat, i: nat)
    requires n <= |nodes| == |turns| && DistinctUuids(nodes) && i < n
    requires MatchAll(nodes, turns, n).Going?
    requires i !in MatchAll(nodes, turns, n).failed
    ensures turns[i].patches.Ok?
    ensures MatchAll(nodes, turns, n).patches[nodes[i].uuid] == turns[i].patches.value
  {
    MatchAllStep(nodes, turns, n - 1);
    if i < n - 1 {
      MatchAllPatches(nodes, turns, n - 1, i);
    }
  }

  /** With distinct uuids, the update loop asks for a node's patches once if it matched, never if it failed. */
  lemma {:induction false} UpdatesOfUpdateAll(nodes: seq<Node>, failed: set<nat>, patches: map<string, seq<Patch>>,
                                               updates: seq<Effect>, n: nat, i: nat)
    requires n <= |nodes| == |updates| && DistinctUuids(nodes) && i < |nodes|
    requires forall k :: 0 <= k < |nodes| && k !in failed ==> nodes[k].uuid in patches
    ensures UpdatesOf(UpdateAll(nodes, failed, patches, updates, n), nodes[i].uuid) ==
      if i < n && i !in failed then [patches[nodes[i].uuid]] else []
  {
    if n > 0 {
      var uuid := nodes[i].uuid;
      var before := UpdateAll(nodes, failed, patches, updates, n - 1);
      var turn := UpdateNode(nodes[n - 1], n - 1 in failed, patches, updates[n - 1]);
      UpdatesOfUpdateAll(nodes, failed, patches, updates, n - 1, i);
      UpdatesOfTurn(nodes[n - 1], n - 1 in failed, patches, updates[n - 1], uuid);
      UpdatesOfConcat(before, turn, uuid);
      if i == n - 1 {
        assert UpdatesOf(before, uuid) == [];
      } else {
        assert uuid != nodes[n - 1].uuid;
        assert UpdatesOf(turn, uuid) == [];
      }
    }
  }

  /** One update turn requests the node's own patches, unless the node is skipped. */
  lemma UpdatesOfTurn(node: Node, skipped: bool, patches: map<string, seq<Patch>>, update: Effect, uuid: string)
    requires !skipped ==> node.uuid in patches
    ensures UpdatesOf(UpdateNode(node, skipped, patches, update), uuid) ==
      if !skipped && node.uuid == uuid then [patches[node.uuid]] else []
  {
    var turn := UpdateNode(node, skipped, patches, update);
    if !skipped {
      var failure := if update.Raises? then [UpdateFailed(node.uuid)] else [];
      assert turn == [UpdateRequested(node.uuid, patches[node.uuid])] + failure;
      NoRequestsAmong(failure, uuid);
      assert turn[1..] == failure;
    }
  }

  /** The events of a completed run: the copy, the matching, the restore, the updates. */
  lemma CompletedEvents(nodes: seq<Node>, configDir: string, copy: Effect, oracles: seq<StateOracle>,
                        restore: Effect, updates: seq<Effect>)
    requires |nodes| == |oracles| == |updates|
    requires copy.Completes? && restore.Completes?
    requires MatchAll(nodes, Turns(nodes, oracles, configDir), |nodes|).Going?
    ensures var p := MatchAll(nodes, Turns(nodes, oracles, configDir), |nodes|);
      Run(nodes, configDir, copy, oracles, restore, updates).1
      == ([StateCopied] + p.events + [StateRestored]) + UpdateAll(nodes, p.failed, p.patches, updates, |nodes|)
  {
    var p := MatchAll(nodes, Turns(nodes, oracles, configDir), |nodes|);
    var tail := UpdateAll(nodes, p.failed, p.patches, updates, |nodes|);
    SeqAssoc(p.events + [StateRestored], tail, []);
    SeqAssoc([StateCopied], p.events + [StateRestored], tail);
    SeqAssoc([StateCopied], p.events, [StateRestored]);
  }

  /**
   * A failed copy, a load failure or a node never introspected ends main
   * before the state file is restored and before any update: the only
   * side effects of a run that does not complete are the copy and the
   * saving and unlocking of the state.
   */
  lemma AbortBeforeRestore(nodes: seq<Node>, configDir: string, copy: Effect, oracles: seq<StateOracle>,
                           restore: Effect, updates: seq<Effect>)
    requires |nodes| == |oracles| == |updates|
    requires Run(nodes, configDir, copy, oracles, restore, updates).0 != Completed
    ensures forall i :: 0 <= i < |Run(nodes, configDir, copy, oracles, restore, updates).1| ==>
      var e := Run(nodes, configDir, copy, oracles, restore, updates).1[i];
      e == StateCopied || IsLockEvent(e)
  {
    if copy.Completes? {
      var turns := Turns(nodes, oracles, configDir);
      var p := MatchAll(nodes, turns, |nodes|);
      MatchAllOnlyLocks(nodes, turns, |nodes|);
      var events := [StateCopied] + p.events;
      assert Run(nodes, configDir, copy, oracles, restore, updates).1 == events;
      assert forall i :: 1 <= i < |events| ==> events[i] == p.events[i - 1];
    }
  }

  /**
   * When every node before position k let the loop go on, a load failure
   * at node k ends main with sys.exit(), a node without a Swift object ends
   * it with the introspection message, and a matched node whose
   * capabilities do not parse ends it with that ValueError uncaught.
   */
  lemma EarlyExit(nodes: seq<Node>, configDir: string, copy: Effect, oracles: seq<StateOracle>,
                  restore: Effect, updates: seq<Effect>, k: nat)
    requires |nodes| == |oracles| == |updates| && k < |nodes|
    requires copy.Completes? && forall i :: 0 <= i < k ==> NodeGoesOn(nodes[i], oracles[i])
    ensures LoadFails(oracles[k]) ==>
      Run(nodes, configDir, copy, oracles, restore, updates).0 == Exited(None)
    ensures !LoadFails(oracles[k]) && SwiftObjectKey !in nodes[k].extra ==>
      Run(nodes, configDir, copy, oracles, restore, updates).0 == Exited(Some(NoIntrospectionMessage))
    ensures MatchSpec(nodes[k], map[], oracles[k], configDir).0.Matched? && CapabilitiesToDict(nodes[k].capabilities).Err? ==>
      Run(nodes, configDir, copy, oracles, restore, updates).0
      == Crashed(PatchFailed(BadCapabilities(CapabilitiesToDict(nodes[k].capabilities).error)))
  {
    var node, oracle := nodes[k], oracles[k];
    var turns := Turns(nodes, oracles, configDir);
    NodesGoOn(nodes, oracles, configDir, k);
    GoingIff(nodes, turns, k);
    assert turns[k] == NodeTurn(node, oracle, configDir);
    NodeGoesOnIff(node, oracle, configDir);
    if !NodeGoesOn(node, oracle) {
      StopsAt(nodes, turns, k);
    }
  }

  /**
   * Whether a node lets main's matching loop go on, in terms of its own
   * behaviour: its state loads, it has a Swift object, and either its
   * match fails or its capabilities parse.
   */
  predicate NodeGoesOn(node: Node, oracle: StateOracle)
  {
    && !LoadFails(oracle)
    && SwiftObjectKey in node.extra
    && (oracle.download.Raises? || oracle.findMatch.NoMatch? || CapabilitiesToDict(node.capabilities).Ok?)
  }

  lemma NodeGoesOnIff(node: Node, oracle: StateOracle, configDir: string)
    ensures GoesOn(NodeTurn(node, oracle, configDir)) <==> NodeGoesOn(node, oracle)
  {
  }

  lemma NodesGoOn(nodes: seq<Node>, oracles: seq<StateOracle>, configDir: string, n: nat)
    requires n <= |nodes| == |oracles|
    ensures (forall i :: 0 <= i < n ==> GoesOn(Turns(nodes, oracles, configDir)[i]))
      <==> (forall i :: 0 <= i < n ==> NodeGoesOn(nodes[i], oracles[i]))
  {
    var turns := Turns(nodes, oracles, configDir);
    forall i | 0 <= i < n
      ensures GoesOn(turns[i]) <==> NodeGoesOn(nodes[i], oracles[i])
    {
      NodeGoesOnIff(nodes[i], oracles[i], configDir);
    }
  }

  /**
   * main completes exactly when the copy and the restore of the state file
   * succeed and every node lets the matching loop go on; a node whose
   * match raised MatchFailedError does not stop it.
   */
  lemma RunCompletes(nodes: seq<Node>, configDir: string, copy: Effect, oracles: seq<StateOracle>,
                     restore: Effect, updates: seq<Effect>)
    requires |nodes| == |oracles| == |updates|
    ensures Run(nodes, configDir, copy, oracles, restore, updates).0 == Completed <==>
      && copy.Completes? && restore.Completes?
      && forall i :: 0 <= i < |nodes| ==> NodeGoesOn(nodes[i], oracles[i])
  {
    var turns := Turns(nodes, oracles, configDir);
    GoingIff(nodes, turns, |nodes|);
    NodesGoOn(nodes, oracles, configDir, |nodes|);
  }

  /**
   * A reached turn that does not let the loop go on stops it for good, and
   * main ends the way that turn says: sys.exit() with get_facts' message,
   * sys.exit() after a LoadFailedError, or the uncaught error of
   * get_update_patches.
   */
  lemma StopsAt(nodes: seq<Node>, turns: seq<Turn>, k: nat)
    requires k < |nodes| == |turns|
    requires MatchAll(nodes, turns, k).Going?
    requires !GoesOn(turns[k])
    ensures MatchAll(nodes, turns, |nodes|).Stopped?
    ensures MatchAll(nodes, turns, |nodes|).outcome ==
      if turns[k].result.Exit? then Exited(Some(turns[k].result.message))
      else if turns[k].result.Raised? then Exited(None)
      else Crashed(PatchFailed(turns[k].patches.error))
  {
    MatchAllStep(nodes, turns, k);
    StoppedPersists(nodes, turns, k + 1, |nodes|);
  }

  /**
   * In a run that completes, the state file is copied first and restored
   * once: everything between is matching, everything after is updating.
   */
  lemma RestoreSeparatesPhases(nodes: seq<Node>, configDir: string, copy: Effect, oracles: seq<StateOracle>,
                               restore: Effect, updates: seq<Effect>)
    requires |nodes| == |oracles| == |updates|
    requires Run(nodes, configDir, copy, oracles, restore, updates).0 == Completed
    ensures Run(nodes, configDir, copy, oracles, restore, updates).1[0] == StateCopied
    ensures exists r :: RestoredAt(Run(nodes, configDir, copy, oracles, restore, updates).1, r)
  {
    var turns := Turns(nodes, oracles, configDir);
    CompletedEvents(nodes, configDir, copy, oracles, restore, updates);
    PhasesAroundRestore(nodes, turns, updates);
  }

  /** The events of a run whose matching went through have the restore between the two phases. */
  lemma PhasesAroundRestore(nodes: seq<Node>, turns: seq<Turn>, updates: seq<Effect>)
    requires |nodes| == |turns| == |updates| && LockCalls(turns)
    requires MatchAll(nodes, turns, |nodes|).Going?
    ensures var p := MatchAll(nodes, turns, |nodes|);
      var events := ([StateCopied] + p.events + [StateRestored]) + UpdateAll(nodes, p.failed, p.patches, updates, |nodes|);
      events[0] == StateCopied && RestoredAt(events, |p.events| + 1)
  {
    var p := MatchAll(nodes, turns, |nodes|);
    var head := [StateCopied] + p.events;
    var tail := UpdateAll(nodes, p.failed, p.patches, updates, |nodes|);
    var events := (head + [StateRestored]) + tail;
    MatchAllOnlyLocks(nodes, turns, |nodes|);
    UpdateAllOnlyUpdates(nodes, p.failed, p.patches, updates, |nodes|);
    var r := |head|;
    assert forall i :: 0 < i < r ==> events[i] == p.events[i - 1];
    assert forall i :: r < i < |events| ==> events[i] == tail[i - r - 1];
    assert RestoredAt(events, r);
  }

  /** The state file is restored at position r of the events, after only matching and before only updating. */
  ghost predicate RestoredAt(events: seq<Event>, r: int)
  {
    && 0 < r < |events|
    && events[r] == StateRestored
    && (forall i :: 0 < i < r ==> IsLockEvent(events[i]))
    && (forall i :: r < i < |events| ==> IsUpdateEvent(events[i]))
  }

  /**
   * In a run that completes, a node whose match raised MatchFailedError
   * is never updated, and every other node is updated exactly once, with
   * the patches built from its own match.
   */
  lemma EachMatchedNodeUpdatedOnce(nodes: seq<Node>, configDir: string, copy: Effect, oracles: seq<StateOracle>,
                                   restore: Effect, updates: seq<Effect>, i: nat)
    requires |nodes| == |oracles| == |updates| && DistinctUuids(nodes) && i < |nodes|
    requires Run(nodes, configDir, copy, oracles, restore, updates).0 == Completed
    ensures NodeFailed(nodes[i], oracles[i], configDir) ==>
      UpdatesOf(Run(nodes, configDir, copy, oracles, restore, updates).1, nodes[i].uuid) == []
    ensures !NodeFailed(nodes[i], oracles[i], configDir) ==>
      && NodePatches(nodes[i], oracles[i], configDir).Ok?
      && UpdatesOf(Run(nodes, configDir, copy, oracles, restore, updates).1, nodes[i].uuid)
         == [NodePatches(nodes[i], oracles[i], configDir).value]
  {
    var turns := Turns(nodes, oracles, configDir);
    CompletedEvents(nodes, configDir, copy, oracles, restore, updates);
    UpdatesAfterMatching(nodes, turns, updates, i);
    assert turns[i] == NodeTurn(nodes[i], oracles[i], configDir);
  }

  /**
   * The updates a node gets in the events of a run whose matching went
   * through: none when its match failed, otherwise its own patches once.
   */
  lemma UpdatesAfterMatching(nodes: seq<Node>, turns: seq<Turn>, updates: seq<Effect>, i: nat)
    requires |nodes| == |turns| == |updates| && DistinctUuids(nodes) && i < |nodes| && LockCalls(turns)
    requires MatchAll(nodes, turns, |nodes|).Going?
    ensures !Failed(turns[i]) ==> turns[i].patches.Ok?
    ensures var p := MatchAll(nodes, turns, |nodes|);
      UpdatesOf(([StateCopied] + p.events + [StateRestored]) + UpdateAll(nodes, p.failed, p.patches, updates, |nodes|),
                nodes[i].uuid)
      == if Failed(turns[i]) then [] else [turns[i].patches.value]
  {
    var p := MatchAll(nodes, turns, |nodes|);
    var uuid := nodes[i].uuid;
    var head := [StateCopied] + p.events + [StateRestored];
    var tail := UpdateAll(nodes, p.failed, p.patches, updates, |nodes|);
    MatchingRequestsNothing(nodes, turns, uuid);
    UpdatesOfConcat(head, tail, uuid);
    UpdatesOfUpdateAll(nodes, p.failed, p.patches, updates, |nodes|, i);
    FailedAreMatchFailures(nodes, turns, |nodes|);
    if i !in p.failed {
      MatchAllPatches(nodes, turns, |nodes|, i);
    }
  }

  /** Copying, matching and restoring the state request no update. */
  lemma MatchingRequestsNothing(nodes: seq<Node>, turns: seq<Turn>, uuid: string)
    requires |nodes| == |turns| && LockCalls(turns)
    ensures UpdatesOf([StateCopied] + MatchAll(nodes, turns, |nodes|).events + [StateRestored], uuid) == []
  {
    var events := MatchAll(nodes, turns, |nodes|).events;
    var head := [StateCopied] + events + [StateRestored];
    MatchAllOnlyLocks(nodes, turns, |nodes|);
    assert forall k :: 0 <= k < |head| ==> !head[k].UpdateRequested? by {
      forall k | 0 <= k < |head| ensures !head[k].UpdateRequested? {
        if 0 < k < |head| - 1 {
          assert head[k] == events[k - 1];
        }
      }
    }
    NoRequestsAmong(head, uuid);
  }

  /** The update requests do not depend on whether earlier updates failed. */
  lemma {:induction false} RequestsIgnoreFailures(nodes: seq<Node>, failed: set<nat>, patches: map<string, seq<Patch>>,
                                                   u1: seq<Effect>, u2: seq<Effect>, n: nat)
    requires n <= |nodes| == |u1| == |u2|
    requires forall i :: 0 <= i < |nodes| && i !in failed ==> nodes[i].uuid in patches
    ensures RequestsOf(UpdateAll(nodes, failed, patches, u1, n)) == RequestsOf(UpdateAll(nodes, failed, patches, u2, n))
  {
    if n > 0 {
      RequestsIgnoreFailures(nodes, failed, patches, u1, u2, n - 1);
      var t1 := UpdateNode(nodes[n - 1], n - 1 in failed, patches, u1[n - 1]);
      var t2 := UpdateNode(nodes[n - 1], n - 1 in failed, patches, u2[n - 1]);
      RequestsOfConcat(UpdateAll(nodes, failed, patches, u1, n - 1), t1);
      RequestsOfConcat(UpdateAll(nodes, failed, patches, u2, n - 1), t2);
      RequestsOfTurn(nodes[n - 1], n - 1 in failed, patches, u1[n - 1]);
      RequestsOfTurn(nodes[n - 1], n - 1 in failed, patches, u2[n - 1]);
    }
  }

  /** One update turn requests at most one update, whether or not that update raises. */
  lemma RequestsOfTurn(node: Node, skipped: bool, patches: map<string, seq<Patch>>, update: Effect)
    requires !skipped ==> node.uuid in patches
    ensures RequestsOf(UpdateNode(node, skipped, patches, update)) ==
      if skipped then [] else [UpdateRequested(node.uuid, patches[node.uuid])]
  {
    var turn := UpdateNode(node, skipped, patches, update);
    if !skipped {
      var failure := if update.Raises? then [UpdateFailed(node.uuid)] else [];
      assert turn == [UpdateRequested(node.uuid, patches[node.uuid])] + failure;
      NoRequestsAmong(failure, node.uuid);
      assert turn[1..] == failure;
    }
  }

  /**
   * A failed update is logged and the loop goes on: whatever the updates
   * do, main ends the same way and requests the same updates.
   */
  lemma UpdateFailuresDoNotStop(nodes: seq<Node>, configDir: string, copy: Effect, oracles: seq<StateOracle>,
                                restore: Effect, u1: seq<Effect>, u2: seq<Effect>)
    requires |nodes| == |oracles| == |u1| == |u2|
    ensures Run(nodes, configDir, copy, oracles, restore, u1).0 == Run(nodes, configDir, copy, oracles, restore, u2).0
    ensures RequestsOf(Run(nodes, configDir, copy, oracles, restore, u1).1)
         == RequestsOf(Run(nodes, configDir, copy, oracles, restore, u2).1)
  {
    if copy.Completes? {
      var p := MatchAll(nodes, Turns(nodes, oracles, configDir), |nodes|);
      if p.Going? && restore.Completes? {
        var head := [StateCopied] + p.events + [StateRestored];
        var t1 := UpdateAll(nodes, p.failed, p.patches, u1, |nodes|);
        var t2 := UpdateAll(nodes, p.failed, p.patches, u2, |nodes|);
        CompletedEvents(nodes, configDir, copy, oracles, restore, u1);
        CompletedEvents(nodes, configDir, copy, oracles, restore, u2);
        RequestsOfConcat(head, t1);
        RequestsOfConcat(head, t2);
        RequestsIgnoreFailures(nodes, p.failed, p.patches, u1, u2, |nodes|);
      }
    }
  }
}
