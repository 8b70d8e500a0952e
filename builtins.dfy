/**
 * The Python built-ins the capability codec is made of: str.split(sep),
 * str.split(sep, 1), sep.join(parts), dict(pairs) and the items of a dict.
 */
module Builtins {
  import opened Wrappers

  /** A (key, value) pair, as produced by "k:v".split(':', 1). */
  type Pair = (string, string)

  /** The position of the first occurrence of c in s. */
  function IndexOf(s: string, c: char): (i: nat)
    requires c in s
    ensures i < |s| && s[i] == c && c !in s[..i]
  {
    if s[0] == c then 0
    else
      var j := IndexOf(s[1..], c);
      assert s[..j + 1] == [s[0]] + s[1..][..j];
      j + 1
  }

  /** The first occurrence of the separator is where a prefix without it ends. */
  lemma IndexOfAfterPrefix(p: string, sep: char, t: string)
    requires sep !in p
    ensures sep in p + [sep] + t && IndexOf(p + [sep] + t, sep) == |p|
  {
    var s := p + [sep] + t;
    assert s[|p|] == sep;
  }

  /** sep.join(parts): the result starts with the first part. */
  function Join(parts: seq<string>, sep: char): (s: string)
    ensures |parts| > 0 ==> |parts[0]| <= |s| && s[..|parts[0]|] == parts[0]
  {
    if |parts| == 0 then ""
    else if |parts| == 1 then parts[0]
    else parts[0] + [sep] + Join(parts[1..], sep)
  }

  /**
   * s.split(sep): at least one piece, no piece holds the separator, and the
   * pieces joined again give s.
   */
  function Split(s: string, sep: char): (parts: seq<string>)
    ensures |parts| >= 1
    ensures forall i :: 0 <= i < |parts| ==> sep !in parts[i]
    ensures Join(parts, sep) == s
    decreases |s|
  {
    if sep !in s then [s]
    else
      var i := IndexOf(s, sep);
      var rest := Split(s[i + 1..], sep);
      var parts := [s[..i]] + rest;
      assert parts[1..] == rest;
      assert s == s[..i] + [sep] + s[i + 1..];
      parts
  }

  /** Splitting after a first piece without the separator yields that piece, then the rest's pieces. */
  lemma SplitAfterPrefix(p: string, sep: char, tail: string)
    requires sep !in p
    ensures Split(p + [sep] + tail, sep) == [p] + Split(tail, sep)
  {
    var s := p + [sep] + tail;
    IndexOfAfterPrefix(p, sep, tail);
    assert s[..|p|] == p;
    assert s[|p| + 1..] == tail;
  }

  /** Joining pieces that are free of the separator and splitting again gives the pieces back. */
  lemma {:induction false} SplitJoin(parts: seq<string>, sep: char)
    requires |parts| >= 1
    requires forall i :: 0 <= i < |parts| ==> sep !in parts[i]
    ensures Split(Join(parts, sep), sep) == parts
  {
    if |parts| > 1 {
      var tail := Join(parts[1..], sep);
      assert Join(parts, sep) == parts[0] + [sep] + tail;
      SplitAfterPrefix(parts[0], sep, tail);
      SplitJoin(parts[1..], sep);
      assert parts == [parts[0]] + parts[1..];
    }
  }

  /** A separator at the very end leaves an empty last piece. */
  lemma {:induction false} SplitTrailingSeparator(s: string, sep: char)
    ensures Last(Split(s + [sep], sep)) == ""
    decreases |s|
  {
    if sep !in s {
      assert s + [sep] == s + [sep] + "";
      SplitAfterPrefix(s, sep, "");
    } else {
      var i := IndexOf(s, sep);
      var rest := s[i + 1..];
      assert s == s[..i] + [sep] + rest;
      assert s + [sep] == s[..i] + [sep] + (rest + [sep]);
      SplitAfterPrefix(s[..i], sep, rest + [sep]);
      SplitTrailingSeparator(rest, sep);
      LastOfConcat([s[..i]], Split(rest + [sep], sep));
    }
  }

  /** The last element of a non-empty sequence. */
  function Last<T>(xs: seq<T>): T
    requires |xs| > 0
  {
    xs[|xs| - 1]
  }

  lemma LastOfConcat<T>(xs: seq<T>, ys: seq<T>)
    requires |ys| > 0
    ensures Last(xs + ys) == Last(ys)
  {}

  /**
   * s.split(sep, 1): None stands for the one-element list Python returns
   * when the separator does not occur; otherwise the text before the first
   * separator and everything after it.
   */
  function SplitOnce(s: string, sep: char): (r: Option<Pair>)
    ensures r.None? <==> sep !in s
    ensures r.Some? ==> sep !in r.value.0 && s == r.value.0 + [sep] + r.value.1
  {
    if sep in s then
      var i := IndexOf(s, sep);
      assert s == s[..i] + [sep] + s[i + 1..];
      Some((s[..i], s[i + 1..]))
    else None
  }

  /** The split happens at the first separator: what follows may hold more of them. */
  lemma SplitOnceAtFirst(k: string, sep: char, v: string)
    requires sep !in k
    ensures SplitOnce(k + [sep] + v, sep) == Some((k, v))
  {
    var s := k + [sep] + v;
    IndexOfAfterPrefix(k, sep, v);
    assert s[..|k|] == k && s[|k| + 1..] == v;
  }

  /** The keys of a sequence of pairs. */
  function KeysOf(pairs: seq<Pair>): (keys: set<string>)
  {
    if pairs == [] then {} else KeysOf(pairs[..|pairs| - 1]) + {pairs[|pairs| - 1].0}
  }

  /** Each pair's key is among the keys, and every key is some pair's. */
  lemma {:induction false} KeysOfMembers(pairs: seq<Pair>)
    ensures forall i :: 0 <= i < |pairs| ==> pairs[i].0 in KeysOf(pairs)
    ensures forall k :: k in KeysOf(pairs) ==> exists i :: 0 <= i < |pairs| && pairs[i].0 == k
  {
    if pairs != [] {
      var n := |pairs| - 1;
      KeysOfMembers(pairs[..n]);
      assert forall i :: 0 <= i < n ==> pairs[..n][i] == pairs[i];
    }
  }

  /**
   * dict(pairs): the dictionary is built left to right, so of several pairs
   * with one key the rightmost decides the value.
   */
  function ToMap(pairs: seq<Pair>): (m: map<string, string>)
    ensures m.Keys == KeysOf(pairs)
  {
    if pairs == [] then map[]
    else
      var n := |pairs| - 1;
      ToMap(pairs[..n])[pairs[n].0 := pairs[n].1]
  }

  /** The rightmost pair with a given key gives that key's value. */
  lemma {:induction false} ToMapRightmost(pairs: seq<Pair>, i: nat)
    requires i < |pairs|
    requires forall j :: i < j < |pairs| ==> pairs[j].0 != pairs[i].0
    ensures pairs[i].0 in ToMap(pairs) && ToMap(pairs)[pairs[i].0] == pairs[i].1
  {
    KeysOfMembers(pairs);
    var n := |pairs| - 1;
    if i < n {
      assert pairs[..n][i] == pairs[i];
      assert forall j :: i < j < n ==> pairs[..n][j] == pairs[j];
      ToMapRightmost(pairs[..n], i);
    }
  }

  /** Appending a pair assigns its key, as d[k] = v does. */
  lemma ToMapSnoc(pairs: seq<Pair>, p: Pair)
    ensures ToMap(pairs + [p]) == ToMap(pairs)[p.0 := p.1]
    ensures KeysOf(pairs + [p]) == KeysOf(pairs) + {p.0}
  {
    assert (pairs + [p])[..|pairs|] == pairs;
  }

  /** No key occurs twice, as in the items of a dict. */
  predicate DistinctKeys(items: seq<Pair>)
  {
    items == [] ||
    var n := |items| - 1;
    DistinctKeys(items[..n]) && items[n].0 !in KeysOf(items[..n])
  }

  /** Distinct keys: no two positions share a key. */
  lemma {:induction false} DistinctKeysPairwise(items: seq<Pair>)
    requires DistinctKeys(items)
    ensures forall i, j :: 0 <= i < j < |items| ==> items[i].0 != items[j].0
  {
    if items != [] {
      var n := |items| - 1;
      DistinctKeysPairwise(items[..n]);
      KeysOfMembers(items[..n]);
      assert forall i :: 0 <= i < n ==> items[..n][i] == items[i];
    }
  }

  /** items enumerates d: each key once, with its value, in some order. */
  ghost predicate IsItemsOf(items: seq<Pair>, d: map<string, string>)
  {
    DistinctKeys(items) && ToMap(items) == d
  }

  /** With distinct keys every pair is an entry of the dict. */
  lemma ItemsAreEntries(items: seq<Pair>, i: nat)
    requires DistinctKeys(items) && i < |items|
    ensures items[i].0 in ToMap(items) && ToMap(items)[items[i].0] == items[i].1
  {
    DistinctKeysPairwise(items);
    KeysOfMembers(items);
    ToMapRightmost(items, i);
  }

  /**
   * d[k] = v on a dict given by its items: an existing key keeps its place
   * and takes the new value; a new key is put in front of the others.
   */
  function Assign(items: seq<Pair>, k: string, v: string): (r: seq<Pair>)
    requires DistinctKeys(items)
    ensures DistinctKeys(r) && ToMap(r) == ToMap(items)[k := v]
    decreases |items|
  {
    if items == [] then [(k, v)]
    else
      var n := |items| - 1;
      if items[n].0 == k then
        ReplaceLast(items, v);
        items[..n] + [(k, v)]
      else
        var front := Assign(items[..n], k, v);
        KeepLast(items, front, k, v);
        front + [items[n]]
  }

  lemma ReplaceLast(items: seq<Pair>, v: string)
    requires DistinctKeys(items) && |items| > 0
    ensures var n := |items| - 1;
      DistinctKeys(items[..n] + [(items[n].0, v)]) &&
      ToMap(items[..n] + [(items[n].0, v)]) == ToMap(items)[items[n].0 := v]
  {
    var n := |items| - 1;
    var last := items[n];
    var r := items[..n] + [(last.0, v)];
    assert r[..n] == items[..n] && r[n] == (last.0, v);
    assert DistinctKeys(r);
    assert ToMap(items) == ToMap(items[..n])[last.0 := last.1];
    ToMapSnoc(items[..n], (last.0, v));
  }

  lemma KeepLast(items: seq<Pair>, front: seq<Pair>, k: string, v: string)
    requires DistinctKeys(items) && |items| > 0 && items[|items| - 1].0 != k
    requires DistinctKeys(front) && ToMap(front) == ToMap(items[..|items| - 1])[k := v]
    ensures DistinctKeys(front + [items[|items| - 1]])
    ensures ToMap(front + [items[|items| - 1]]) == ToMap(items)[k := v]
  {
    var n := |items| - 1;
    var last := items[n];
    assert ToMap(items) == ToMap(items[..n])[last.0 := last.1];
    ToMapSnoc(front, last);
    UpdatesCommute(ToMap(items[..n]), k, v, last.0, last.1);
  }

  lemma UpdatesCommute(m: map<string, string>, k: string, v: string, l: string, w: string)
    requires k != l
    ensures m[k := v][l := w] == m[l := w][k := v]
  {
  }

  /**
   * One enumeration of the items of dict(pairs): each key once, the key
   * first inserted last (the dict itself promises no order).
   */
  function DictItems(pairs: seq<Pair>): (items: seq<Pair>)
    ensures DistinctKeys(items) && ToMap(items) == ToMap(pairs)
  {
    if pairs == [] then []
    else
      var n := |pairs| - 1;
      Assign(DictItems(pairs[..n]), pairs[n].0, pairs[n].1)
  }

  /** Every dict has an enumeration of its items. */
  lemma ItemsExist(d: map<string, string>) returns (items: seq<Pair>)
    ensures IsItemsOf(items, d)
    decreases |d|
  {
    if d == map[] {
      items := [];
    } else {
      var k :| k in d;
      var rest := d - {k};
      RemoveAndPutBack(d, k);
      var front := ItemsExist(rest);
      items := Assign(front, k, d[k]);
    }
  }

  /** Taking a key out shrinks the dict, and putting it back restores it. */
  lemma RemoveAndPutBack(d: map<string, string>, k: string)
    requires k in d
    ensures |d - {k}| < |d| && (d - {k})[k := d[k]] == d
  {
    assert (d - {k}).Keys + {k} == d.Keys;
  }
}
