# ahc_tools node-profile update path, in Dafny

This project models the part of `ahc_tools` that assigns a hardware profile
to each Ironic node and writes that profile back into the node. It has three
pieces:

- **The capability codec** (`wrappers.dfy`, `builtins.dfy`, `utils.dfy`).
  - A node's capabilities are a string such as `"cat:meow,profile:robin"`.
  - `capabilities_to_dict` splits the string on `,`, then splits each entry at its first `:`. It feeds the pairs to `dict()`.
  - `dict_to_capabilities` writes a dict back as `key:value` entries joined by `,`.
  - `builtins.dfy` models the Python built-ins these are made of: `str.split(sep)`, `str.split(sep, 1)`, `sep.join`, `dict(pairs)`, the items of a dict, and `d[k] = v`.
- **Patches, match and main** (`match.dfy`).
  - `get_update_patches` is a function from the node and its `node_info` to the list of JSON-patch `add` operations.
  - `match` is a method. It fills a `NodeInfo` object in place and records its calls on the state object (save, unlock) in a `Journal`.
  - `main` is a method. Its first loop matches every node. It keeps the failed positions and a `uuid -> patches` map. It then restores the state file, and its second loop updates every node that did not fail.
  - Every method is proved equal to a specification function: `MatchSpec` for `match`, and `MatchAll`, `Finish` and `Run` for `main`. The guarantees of `main` are lemmas about `Run`.
- **Error messages** (`exc.dfy`). These are the messages that `LoadFailedError` and `MatchFailedError` format.

External behaviour enters the model as parameters:

- The edeploy state library is a `StateOracle` per node. It says whether `State()` raises, whether `load` raises, whether the Swift download in `get_facts` raises, and what `find_match` returns.
- `_copy_state`, `_restore_state` and each `node.update` are an `Effect` that either completes or raises.
- The side effects on the state file and on Ironic are an ordered trace of `Event`s.

## Model

| member | source | states |
|---|---|---|
| Builtins.Split | ahc_tools/utils.py:73 | `str.split(',')` returns at least one piece, no piece holds the separator, and the pieces joined again give the string back |
| Builtins.SplitOnce | ahc_tools/utils.py:73 | `split(':', 1)` finds no separator exactly when there is none; otherwise it splits at the first one: the key holds no `:` and key + `:` + rest is the entry |
| Builtins.SplitOnceAtFirst | ahc_tools/utils.py:73 | an entry `k:v` with no `:` in `k` splits into exactly `(k, v)`, even when `v` holds more colons |
| Builtins.Join | ahc_tools/utils.py:78 | `','.join(parts)` begins with the first part |
| Builtins.SplitJoin | ahc_tools/utils.py:69-78 | joining pieces free of the separator and splitting again gives back the same pieces |
| Builtins.SplitTrailingSeparator | ahc_tools/utils.py:73 | a string ending in `,` splits into a last piece that is empty |
| Builtins.ToMap | ahc_tools/utils.py:73 | `dict(pairs)` has exactly the keys of the pairs |
| Builtins.ToMapRightmost | ahc_tools/utils.py:73 | `dict(pairs)` maps a key to the value of its rightmost pair |
| Builtins.DistinctKeysPairwise | ahc_tools/utils.py:78 | in a dict's items, no two positions share a key |
| Builtins.ItemsAreEntries | ahc_tools/utils.py:78 | every item of a dict is one of its entries |
| Builtins.Assign | ahc_tools/match.py:69 | `d[k] = v` on a dict given by its items keeps the keys distinct, and the dict becomes `d[k := v]` |
| Builtins.DictItems | ahc_tools/match.py:67-69 | the items of `dict(pairs)` have distinct keys and make up exactly `dict(pairs)` |
| Utils.EntryParts | ahc_tools/utils.py:78 | `"%s:%s" % (k, v)` is the key, one `:`, then the value; when the key holds no `:`, `split(':', 1)` gives back exactly `(k, v)` |
| Builtins.ItemsExist | ahc_tools/utils.py:78 | every dict has an enumeration of its items, so `dict_to_capabilities` applies to every dict |
| Utils.Entries | ahc_tools/utils.py:78 | one `key:value` entry per item, in item order |
| Utils.SplitEntries | ahc_tools/utils.py:73 | each entry is split at its first `:`; the result is an error exactly when some entry has no `:`; the error names the first such entry, and no pairs are returned then |
| Utils.ParseEntries | ahc_tools/utils.py:71-73 | every pair parsed from a capabilities string has no `,` or `:` in its key and no `,` in its value |
| Utils.CapabilitiesToDict | ahc_tools/utils.py:69-73 | None or `""` gives `{}`; otherwise the result is an error exactly when some comma-separated entry lacks `:`, and it names the first one; a parsed dict is serialisable |
| Utils.DictToCapabilities | ahc_tools/utils.py:76-78 | the empty dict gives `""`, and only it does; with no `,` in keys or values, splitting the output on `,` gives exactly one `key:value` entry per item |
| Utils.ToMapSerialisable | ahc_tools/utils.py:73 | `dict()` of serialisable pairs is serialisable |
| Utils.CapabilitiesRightmostWins | ahc_tools/utils.py:73 | when a key is written more than once, the rightmost entry gives its value |
| Utils.ValueKeepsLaterColons | ahc_tools/utils.py:73 | `"k:v"` with colons inside `v` parses to `{k: v}` |
| Utils.TrailingCommaRejected | ahc_tools/utils.py:73 | a capabilities string ending in `,` is an error |
| Utils.SplitEntriesOfEntries | ahc_tools/utils.py:69-78 | the written `key:value` entries split back into the same pairs |
| Utils.RoundTripItems | ahc_tools/utils.py:69-78 | parsing the string written from serialisable items with distinct keys gives the dict of those items |
| Utils.RoundTrip | ahc_tools/utils.py:69-78 | `capabilities_to_dict(dict_to_capabilities(d)) == d` for every dict whose keys hold neither `,` nor `:` and whose values hold no `,`, whatever the item order |
| Utils.SerialiseParsed | ahc_tools/utils.py:69-78 | written in the order they were parsed, the pairs of a capabilities string with distinct keys give the string back; the dict's own item order may differ, so the string `dict_to_capabilities` writes may list the entries in another order |
| Exc.LoadFailed | ahc_tools/exc.py:23-26 | the message is exactly `"Unable to load the state file in "`, the config dir, `". Error was: "`, then the original message |
| Exc.MatchFailed | ahc_tools/exc.py:37-39 | the message is exactly `"Failed to match node uuid: "`, the uuid, `". Error was: "`, then the original message |
| Exc.CauseIsKept | ahc_tools/exc.py:24-38 | both messages end with the original error text |
| Exc.CauseIsRecoverable | ahc_tools/exc.py:24-38 | for a fixed directory or uuid, equal messages mean equal original texts |
| Exc.KindsDifferByPrefix | ahc_tools/exc.py:24-38 | load failures start with "Unable to load", match failures with "Failed to match", and no message of one kind equals one of the other |
| Match.ProfileOf | ahc_tools/match.py:69 | `node_info['hardware']['profile']` is read exactly when `hardware` is an object whose `profile` is a string, and the value read is that string |
| Match.GetUpdatePatches | ahc_tools/match.py:61-91 | `[]` without `hardware`; an error exactly when the capabilities do not parse or there is no profile: the capabilities' `ValueError` first, otherwise `NoProfile`; otherwise every op is `add`, the length is 2 plus the raid and bios keys present, patch 0 is the configdrive patch, patch 1 the capabilities patch holding some item order of the parsed capabilities with `profile` replaced, then raid, then bios |
| Match.CapabilitiesPatch | ahc_tools/match.py:67-77 | an `add` on `/properties/capabilities` whose value is some item order of the capabilities dict with `profile` set |
| Match.PatchList | ahc_tools/match.py:71-91 | the fixed order: configdrive, capabilities, raid iff present, bios iff present; every op is `add` |
| Match.CapabilitiesPatchRoundTrip | ahc_tools/match.py:67-77 | read back, the capabilities patch is the parsed dict with only `profile` replaced |
| Match.CapabilitiesPatchReplacesProfile | ahc_tools/match.py:67-77 | read back, the capabilities patch of `get_update_patches` is the node's old dict with `profile` set to `node_info['hardware']['profile']`, and every other capability unchanged |
| Match.Reshape | ahc_tools/match.py:43-53 | `hardware` is the matched data with `profile` stamped in and without `logical_disks` or `bios_settings`; `target_raid_configuration == {'logical_disks': …}` and `bios_settings` appear iff present; every other key of `node_info` is unchanged |
| Match.MatchSpec | ahc_tools/match.py:31-58 | `LoadFailedError` iff `State()` or `load` raised, with no save and an unlock only if the state was built; otherwise save then unlock once, whatever follows; the `LoadFailedError` carries the config dir and the message of `State()`, or of `load` when `State()` succeeded; exit with the introspection message iff there is no Swift object; a failed download raises `MatchFailedError` with its own message, before `find_match` runs; otherwise a `find_match` that raises gives `MatchFailedError` with its message; only a match changes `node_info` |
| Match.NodeInfo.constructor | ahc_tools/match.py:123 | `node_info` starts empty |
| Match.Match | ahc_tools/match.py:31-58 | the method returns what `MatchSpec` says, leaves `node_info` as it says, and appends exactly its state calls to the journal |
| Match.MatchedProfileReachesCapabilities | ahc_tools/match.py:43-77 | after a match, when the node's capabilities parse and the profile holds no `,`, the patches are built, and their capabilities patch reads back as the old capabilities with `profile` set to the profile `find_match` returned |
| Match.NodeTurn | ahc_tools/match.py:122-126 | one node's turn only saves and unlocks the state; after a match its patches build iff its capabilities parse |
| Match.Turns | ahc_tools/match.py:121-126 | the turns of the loop: the turn at position `i` is node `i`'s own turn, and no turn does more than save and unlock the state |
| Match.Step | ahc_tools/match.py:122-132 | a turn appends its state calls; the loop goes on exactly when the node raised `MatchFailedError` or matched and its patches were built; otherwise it stops with `sys.exit(message)` for an exit, `sys.exit()` for a `LoadFailedError`, and the uncaught error of `get_update_patches` for a matched node; a `MatchFailedError` adds the node to the failed set and leaves the patches; any other turn that goes on stores the node's own patches under its uuid; a turn that stops never completes the run |
| Match.MatchAll | ahc_tools/match.py:120-132 | while the loop goes on, only visited nodes have failed, and every visited node that did not fail has its patches |
| Match.GoingIff | ahc_tools/match.py:121-132 | the matching loop over the first `n` nodes goes on exactly when each of their turns raised `MatchFailedError` or matched with patches built |
| Match.FailedAreMatchFailures | ahc_tools/match.py:130-132 | the failed nodes are exactly those whose match raised `MatchFailedError` |
| Match.StoppedPersists | ahc_tools/match.py:127-129 | once the loop stops, later nodes change nothing |
| Match.StopsAt | ahc_tools/match.py:121-129 | a reached turn that does not let the loop go on ends main: with `sys.exit(message)` for an exit, `sys.exit()` for a `LoadFailedError`, and the uncaught `get_update_patches` error for a matched node whose patches fail (match.py:126) |
| Match.MatchAllPatches | ahc_tools/match.py:126 | with distinct uuids, a matched node's patches are those of its own turn |
| Match.Finish | ahc_tools/match.py:134-148 | main completes exactly when the loop went on to the end and the restore succeeded |
| Match.Run | ahc_tools/match.py:112-148 | a failed copy exits with no side effects; otherwise the copy comes first; a completed run copied, matched every node and restored |
| Match.MatchTurn | ahc_tools/match.py:122-132 | one loop body, as `Step` says |
| Match.MatchNodes | ahc_tools/match.py:120-132 | the first loop, as `MatchAll` says |
| Match.UpdateNodes | ahc_tools/match.py:141-148 | the second loop requests every non-failed node's update in node order, and records each failed update and carries on |
| Match.MatchRestoreUpdate | ahc_tools/match.py:120-148 | matching, restore and updates, as `Finish` says |
| Match.MatchAndUpdate | ahc_tools/match.py:112-148 | main from the copy on, as `Run` says |
| Match.MatchAllOnlyLocks | ahc_tools/match.py:120-132 | the matching loop only saves and unlocks the state |
| Match.UpdatesOfTurn | ahc_tools/match.py:142-144 | one turn of the update loop (`UpdateNode`) requests the node's own patches, once, unless the node failed to match, and requests nothing for any other uuid |
| Match.RequestsOfTurn | ahc_tools/match.py:142-148 | one turn of the update loop (`UpdateNode`) requests exactly one update for a matched node and none for a failed one, whether or not the update raises |
| Match.UpdateAllOnlyUpdates | ahc_tools/match.py:141-148 | the update loop (`UpdateAll`) only requests updates and logs their failures |
| Match.UpdatesOfUpdateAll | ahc_tools/match.py:141-144 | with distinct uuids, the update loop (`UpdateAll`) requests a non-failed node's patches once, and never a failed node's |
| Match.CompletedEvents | ahc_tools/match.py:112-148 | a completed run's trace is: the copy, the matching calls, the restore, the updates |
| Match.AbortBeforeRestore | ahc_tools/match.py:112-129 | a run that does not complete has no restore and no update: only the copy, saves and unlocks |
| Match.EarlyExit | ahc_tools/match.py:121-129 | when every earlier node loaded, had a Swift object, and either failed to match or had capabilities that parse, then a load failure at node `k` ends main with `sys.exit()`; a node with no Swift object ends it with the introspection message; a matched node whose capabilities do not parse ends it with that `ValueError` uncaught |
| Match.RunCompletes | ahc_tools/match.py:112-148 | main completes exactly when the copy and the restore succeed and every node loads, has a Swift object, and either fails to match or has capabilities that parse; so a `MatchFailedError` never stops main |
| Match.PhasesAroundRestore | ahc_tools/match.py:120-148 | once matching went through, the trace is the copy, then saves and unlocks, then one restore, then update events only |
| Match.RestoreSeparatesPhases | ahc_tools/match.py:120-148 | in a completed run the copy is first, and one restore splits the trace into saves and unlocks before it and update events after it |
| Match.UpdatesAfterMatching | ahc_tools/match.py:120-148 | with distinct uuids and matching gone through, a node whose match failed gets no update and every other node gets its own patches once |
| Match.EachMatchedNodeUpdatedOnce | ahc_tools/match.py:120-148 | in a completed run, a node whose match failed is never updated; every other node is updated exactly once, with the patches built from its own match |
| Match.RequestsIgnoreFailures | ahc_tools/match.py:141-148 | the update requests do not depend on which updates fail |
| Match.UpdateFailuresDoNotStop | ahc_tools/match.py:141-148 | whichever updates fail, main ends the same way and requests the same updates |

## Left out

- Logging is not modelled. This covers every `LOG` call: the copy-failure message, the failed-nodes summary and the update-failure message. The model records a failed update only as an `UpdateFailed` event.
- Configuration and setup are not modelled: option parsing, `get_ironic_client` (ahc_tools/utils.py:53-66), `setup_logging` (ahc_tools/utils.py:81-92), the logging configuration at the start of `main` (ahc_tools/match.py:95-106) and the `node.list` call. The nodes, the config directory and each call's behaviour are parameters.
- The Swift download, JSON decoding and the module reload in `get_facts` (ahc_tools/utils.py:30-50) are one `download` effect. Only the exit when `hardware_swift_object` is missing is kept, with its exact message.
- The internals of `hardware.state.State` are not modelled: the state file, `find_match`'s matching rules, and what `save`/`unlock` do.
- Match.MatchSpec: every `save()` and `unlock()` call is taken to complete. This includes the unlock in the `except` block at ahc_tools/match.py:38 and the save and unlock in the `finally` block at ahc_tools/match.py:57-58. If one of them raised, Python would propagate that error in place of `LoadFailedError` or `MatchFailedError`.
- `_copy_state` and `_restore_state` (ahc_tools/match.py:151-160) are single effects. The file copies themselves are not modelled.
- Match.Value: JSON values carry integers only. The state library's floats and tuples are not modelled.
- Match.GetUpdatePatches: a missing profile is one `NoProfile` error. Python raises `KeyError` when `hardware` has no `profile` key and `TypeError` when `hardware` is not a dict (ahc_tools/match.py:69); the model does not tell these apart.
- Match.ProfileOf: a profile that is not a string is treated as missing (`NoProfile`). Python would format it with `str()` instead. After `match`, the profile is always a string.
- Match.GetUpdatePatches: Python 2 dict order is unspecified. The capabilities patch is therefore stated for some enumeration of the updated dict, not for a fixed string.
- Match.EachMatchedNodeUpdatedOnce: assumes distinct uuids, as Ironic guarantees. `main` tests membership in `failed_nodes` by node object and keys `patches` by uuid; the model identifies nodes by list position.
- Match.Run: `get_update_patches` raising is an uncaught exception that ends `main` (`Crashed`). Stack unwinding and the interpreter's exit status are not modelled.
- `e.message` (Python 2) is the same text as the message that `Exc.LoadFailed` and `Exc.MatchFailed` build; it appears only in logging.
- `ahc_tools/report.py`, `ahc_tools/common/swift.py`, `ahc_tools/conf.py` and the hardware-discovery agent are not part of this model.
