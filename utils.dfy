/**
 * The capability codec of ahc_tools/utils.py: a node's capabilities are a
 * string such as "cat:meow,profile:robin", read as a dict of key -> value.
 */
module Utils {
  import opened Wrappers
  import opened Builtins

  /** The ValueError dict() raises: the entry at this position has no ':' to split at. */
  datatype CapabilitiesError = EntryWithoutColon(element: nat)

  /** "%s:%s" % (key, value) */
  function Entry(p: Pair): string
  {
    p.0 + ":" + p.1
  }

  /**
   * An entry is the key, one ':', the value; a key without ':' comes back
   * whole from split(':', 1), with the value after it.
   */
  lemma EntryParts(p: Pair)
    ensures |Entry(p)| == |p.0| + 1 + |p.1|
    ensures Entry(p)[..|p.0|] == p.0 && Entry(p)[|p.0|] == ':' && Entry(p)[|p.0| + 1..] == p.1
    ensures ':' !in p.0 ==> SplitOnce(Entry(p), ':') == Some(p)
  {
    if ':' !in p.0 {
      SplitOnceAtFirst(p.0, ':', p.1);
    }
  }

  /** The entries of a dict given by its items, one "key:value" per item. */
  function Entries(items: seq<Pair>): (entries: seq<string>)
    ensures |entries| == |items|
    ensures forall i :: 0 <= i < |items| ==> entries[i] == Entry(items[i])
  {
    if items == [] then [] else [Entry(items[0])] + Entries(items[1..])
  }

  /** A pair the serialised form can carry: no ',' or ':' in the key, no ',' in the value. */
  predicate Serialisable(p: Pair)
  {
    ',' !in p.0 && ':' !in p.0 && ',' !in p.1
  }

  ghost predicate SerialisableDict(d: map<string, string>)
  {
    forall k :: k in d ==> Serialisable((k, d[k]))
  }

  /**
   * The pairs the generator of capabilities_to_dict feeds to dict(): each
   * entry split at its first ':'. An entry without ':' stops dict() with a
   * ValueError naming that entry's position; nothing is returned then.
   */
  function SplitEntries(entries: seq<string>): (r: Result<seq<Pair>, CapabilitiesError>)
    ensures r.Ok? ==> |r.value| == |entries|
    ensures r.Ok? ==> forall i :: 0 <= i < |entries| ==> SplitOnce(entries[i], ':') == Some(r.value[i])
    ensures r.Err? <==> exists i :: 0 <= i < |entries| && ':' !in entries[i]
    ensures r.Err? ==> r.error.element < |entries| && ':' !in entries[r.error.element]
    ensures r.Err? ==> forall i :: 0 <= i < r.error.element ==> ':' in entries[i]
    decreases |entries|
  {
    if entries == [] then Ok([])
    else
      match SplitOnce(entries[0], ':')
      case None => Err(EntryWithoutColon(0))
      case Some(kv) =>
        match SplitEntries(entries[1..])
        case Err(e) => Err(EntryWithoutColon(e.element + 1))
        case Ok(rest) => Ok([kv] + rest)
  }

  /** The pairs of a capabilities string, in the order they are written. */
  function ParseEntries(caps: Option<string>): (r: Result<seq<Pair>, CapabilitiesError>)
    ensures r.Ok? ==> forall i :: 0 <= i < |r.value| ==> Serialisable(r.value[i])
  {
    if caps.None? || caps.value == "" then Ok([])
    else SplitEntries(Split(caps.value, ','))
  }

  lemma SerialisableUpdate(d: map<string, string>, key: string, value: string)
    requires SerialisableDict(d) && Serialisable((key, value))
    ensures SerialisableDict(d[key := value])
  {
  }

  /** Every entry of dict(pairs) comes from one of the pairs. */
  lemma {:induction false} ToMapSerialisable(pairs: seq<Pair>)
    requires forall i :: 0 <= i < |pairs| ==> Serialisable(pairs[i])
    ensures SerialisableDict(ToMap(pairs))
  {
    if pairs != [] {
      var n := |pairs| - 1;
      assert forall i :: 0 <= i < n ==> pairs[..n][i] == pairs[i];
      ToMapSerialisable(pairs[..n]);
    }
  }

  /**
   * capabilities_to_dict: None and "" give the empty dict; otherwise the
   * string is split on ',' and each entry at its first ':'. The result is
   * an error exactly when some entry (an empty one included) has no ':',
   * and the error names the first such entry.
   */
  function CapabilitiesToDict(caps: Option<string>): (r: Result<map<string, string>, CapabilitiesError>)
    ensures caps.None? || caps == Some("") ==> r == Ok(map[])
    ensures caps.Some? && caps.value != "" ==>
      (r.Err? <==> exists i :: 0 <= i < |Split(caps.value, ',')| && ':' !in Split(caps.value, ',')[i])
    ensures r.Err? ==> caps.Some? && caps.value != ""
    ensures r.Err? ==>
      var entries := Split(caps.value, ',');
      && r.error.element < |entries|
      && ':' !in entries[r.error.element]
      && forall i :: 0 <= i < r.error.element ==> ':' in entries[i]
    ensures r.Ok? ==> SerialisableDict(r.value)
  {
    match ParseEntries(caps)
    case Err(e) => Err(e)
    case Ok(pairs) =>
      ToMapSerialisable(pairs);
      Ok(ToMap(pairs))
  }

  /**
   * dict_to_capabilities, given the dict's items in its iteration order:
   * "" for the empty dict and only for it; otherwise one "key:value" entry
   * per key, joined by ','.
   */
  function DictToCapabilities(items: seq<Pair>): (caps: string)
    requires DistinctKeys(items)
    ensures caps == "" <==> items == []
    ensures items != [] && (forall i :: 0 <= i < |items| ==> ',' !in items[i].0 && ',' !in items[i].1) ==>
      Split(caps, ',') == Entries(items)
  {
    var entries := Entries(items);
    EntriesSplit(items);
    Join(entries, ',')
  }

  lemma EntriesSplit(items: seq<Pair>)
    ensures items != [] ==> ':' in Entries(items)[0]
    ensures items != [] && (forall i :: 0 <= i < |items| ==> ',' !in items[i].0 && ',' !in items[i].1) ==>
      Split(Join(Entries(items), ','), ',') == Entries(items)
  {
    var entries := Entries(items);
    if items != [] {
      assert entries[0] == items[0].0 + [':'] + items[0].1;
      if forall i :: 0 <= i < |items| ==> ',' !in items[i].0 && ',' !in items[i].1 {
        forall i | 0 <= i < |entries| ensures ',' !in entries[i] {
          assert entries[i] == items[i].0 + [':'] + items[i].1;
        }
        SplitJoin(entries, ',');
      }
    }
  }

  /** When a key is written more than once, the entry furthest to the right decides its value. */
  lemma CapabilitiesRightmostWins(caps: string, i: nat)
    requires caps != "" && CapabilitiesToDict(Some(caps)).Ok?
    requires i < |Split(caps, ',')|
    requires var entries := Split(caps, ',');
      ':' in entries[i] &&
      forall j :: i < j < |entries| && ':' in entries[j] ==>
        SplitOnce(entries[j], ':').value.0 != SplitOnce(entries[i], ':').value.0
    ensures var kv := SplitOnce(Split(caps, ',')[i], ':').value;
      kv.0 in CapabilitiesToDict(Some(caps)).value &&
      CapabilitiesToDict(Some(caps)).value[kv.0] == kv.1
  {
    var pairs := ParseEntries(Some(caps)).value;
    ToMapRightmost(pairs, i);
  }

  /** Each entry is split at its first ':' only, so a value may itself hold ':'. */
  lemma ValueKeepsLaterColons(key: string, value: string)
    requires Serialisable((key, value))
    ensures CapabilitiesToDict(Some(key + ":" + value)) == Ok(map[key := value])
  {
    var caps := key + ":" + value;
    assert caps == key + [':'] + value;
    assert ',' !in caps;
    assert Split(caps, ',') == [caps];
    SplitOnceAtFirst(key, ':', value);
    SplitEntriesOfEntries([(key, value)]);
    assert Entries([(key, value)]) == [caps];
  }

  /** An empty entry, as a trailing comma leaves, is an error: no partial dict is returned. */
  lemma TrailingCommaRejected(caps: string)
    ensures CapabilitiesToDict(Some(caps + ",")).Err?
  {
    SplitTrailingSeparator(caps, ',');
    var entries := Split(caps + ",", ',');
    assert ':' !in entries[|entries| - 1];
  }

  /** Each "key:value" entry splits back into its own pair. */
  lemma {:induction false} SplitEntriesOfEntries(items: seq<Pair>)
    requires forall i :: 0 <= i < |items| ==> ':' !in items[i].0
    ensures SplitEntries(Entries(items)) == Ok(items)
  {
    if items != [] {
      var e := Entry(items[0]);
      assert e == items[0].0 + [':'] + items[0].1;
      SplitOnceAtFirst(items[0].0, ':', items[0].1);
      SplitEntriesOfEntries(items[1..]);
      SplitEntriesCons(e, Entries(items[1..]));
      assert Entries(items) == [e] + Entries(items[1..]);
      assert items == [items[0]] + items[1..];
    }
  }

  lemma SplitEntriesCons(entry: string, rest: seq<string>)
    requires ':' in entry && SplitEntries(rest).Ok?
    ensures SplitEntries([entry] + rest) == Ok([SplitOnce(entry, ':').value] + SplitEntries(rest).value)
  {
    assert ([entry] + rest)[1..] == rest;
  }

  /** Serialising items and parsing the string again gives the dict of those items. */
  lemma RoundTripItems(items: seq<Pair>)
    requires DistinctKeys(items)
    requires forall i :: 0 <= i < |items| ==> Serialisable(items[i])
    ensures CapabilitiesToDict(Some(DictToCapabilities(items))) == Ok(ToMap(items))
  {
    if items != [] {
      var caps := DictToCapabilities(items);
      assert Split(caps, ',') == Entries(items);
      SplitEntriesOfEntries(items);
      assert ParseEntries(Some(caps)) == Ok(items);
    }
  }

  /**
   * Round trip: a dict whose keys hold neither ',' nor ':' and whose values
   * hold no ',' comes back unchanged, whatever order its items are written in.
   */
  lemma RoundTrip(d: map<string, string>, items: seq<Pair>)
    requires IsItemsOf(items, d) && SerialisableDict(d)
    ensures CapabilitiesToDict(Some(DictToCapabilities(items))) == Ok(d)
  {
    forall i | 0 <= i < |items| ensures Serialisable(items[i]) {
      ItemsAreEntries(items, i);
    }
    RoundTripItems(items);
  }

  /**
   * The other way round, for one item order: the pairs parsed from a string
   * with distinct keys, written in the order they were parsed, give the
   * string back. A dict's own item order may differ, so this does not say
   * that dict_to_capabilities(capabilities_to_dict(s)) is s.
   */
  lemma SerialiseParsed(caps: string)
    requires ParseEntries(Some(caps)).Ok? && DistinctKeys(ParseEntries(Some(caps)).value)
    ensures DictToCapabilities(ParseEntries(Some(caps)).value) == caps
  {
    if caps != "" {
      var pairs := ParseEntries(Some(caps)).value;
      var entries := Split(caps, ',');
      assert Entries(pairs) == entries by {
        forall i | 0 <= i < |entries| ensures Entries(pairs)[i] == entries[i] {
          assert entries[i] == pairs[i].0 + [':'] + pairs[i].1;
        }
      }
    }
  }
}
