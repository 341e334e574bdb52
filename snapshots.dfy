/**
 * Metric dictionaries as the two languages of the system hold them: a Python
 * dict on the server and a JavaScript object in the browser. Both keep their
 * keys in insertion order, and that order decides the layout of the JSON text
 * and the order of `Object.entries`, so a dictionary is an ordered list of
 * fields here rather than a Dafny map.
 */
module Snapshots {
  import opened Wrappers

  /** One key/value pair of a metrics dictionary (metric values are integers). */
  datatype Field = Field(key: string, value: int)

  /** An insertion-ordered dictionary of metric values. */
  type Snapshot = seq<Field>

  /** The keys of a dictionary, in order. */
  function KeysOf(s: Snapshot): (ks: seq<string>)
    ensures |ks| == |s|
    ensures forall i :: 0 <= i < |s| ==> ks[i] == s[i].key
  {
    seq(|s|, i requires 0 <= i < |s| => s[i].key)
  }

  /** No key occurs twice: what every Python dict and JavaScript object satisfies. */
  ghost predicate UniqueKeys(s: Snapshot) {
    forall i, j :: 0 <= i < j < |s| ==> s[i].key != s[j].key
  }

  /** The value stored under `k`: the first field with that key. */
  function Lookup(s: Snapshot, k: string): (r: Option<int>)
    ensures r.Some? <==> k in KeysOf(s)
    ensures r.Some? ==> exists i :: 0 <= i < |s| && s[i] == Field(k, r.value)
  {
    if s == [] then None
    else if s[0].key == k then Some(s[0].value)
    else
      var r := Lookup(s[1..], k);
      assert KeysOf(s) == [s[0].key] + KeysOf(s[1..]);
      assert r.Some? ==> exists i :: 0 <= i < |s[1..]| && s[1..][i] == Field(k, r.value);
      r
  }

  /** With unique keys, the value under a key is the one its field carries. */
  lemma {:induction false} LookupUnique(s: Snapshot, i: nat)
    requires UniqueKeys(s) && i < |s|
    ensures Lookup(s, s[i].key) == Some(s[i].value)
  {
    if i > 0 {
      assert s[0].key != s[i].key;
      assert s[1..][i - 1] == s[i];
      LookupUnique(s[1..], i - 1);
    }
  }

  /** Every field with key `k` set to value `v`; every other field as it was. */
  function Replace(s: Snapshot, k: string, v: int): (r: Snapshot)
    ensures |r| == |s|
    ensures forall i :: 0 <= i < |s| ==> r[i] == if s[i].key == k then Field(k, v) else s[i]
  {
    if s == [] then []
    else [if s[0].key == k then Field(k, v) else s[0]] + Replace(s[1..], k, v)
  }

  lemma {:induction false} LookupReplace(s: Snapshot, k: string, v: int, k': string)
    ensures Lookup(Replace(s, k, v), k') ==
      if k' == k then (if k in KeysOf(s) then Some(v) else None) else Lookup(s, k')
  {
    if s != [] {
      var r := Replace(s, k, v);
      assert r[1..] == Replace(s[1..], k, v);
      assert KeysOf(s) == [s[0].key] + KeysOf(s[1..]);
      LookupReplace(s[1..], k, v, k');
    }
  }

  lemma {:induction false} LookupAppend(s: Snapshot, f: Field, k: string)
    ensures Lookup(s + [f], k) ==
      if k in KeysOf(s) then Lookup(s, k) else if f.key == k then Some(f.value) else None
  {
    if s != [] {
      assert (s + [f])[1..] == s[1..] + [f];
      assert KeysOf(s) == [s[0].key] + KeysOf(s[1..]);
      LookupAppend(s[1..], f, k);
    }
  }

  /**
   * `{...s, [k]: v}`, and equally Python's `d[k] = v`: an existing key keeps
   * its position and takes the new value, a new key goes at the end.
   */
  function Put(s: Snapshot, k: string, v: int): Snapshot {
    if k in KeysOf(s) then Replace(s, k, v) else s + [Field(k, v)]
  }

  /** Put sets exactly one key: the others keep their values and their order. */
  lemma PutSpec(s: Snapshot, k: string, v: int)
    ensures Lookup(Put(s, k, v), k) == Some(v)
    ensures forall k' :: k' != k ==> Lookup(Put(s, k, v), k') == Lookup(s, k')
    ensures KeysOf(Put(s, k, v)) == if k in KeysOf(s) then KeysOf(s) else KeysOf(s) + [k]
    ensures UniqueKeys(s) ==> UniqueKeys(Put(s, k, v))
  {
    var r := Put(s, k, v);
    if k in KeysOf(s) {
      LookupReplace(s, k, v, k);
      forall k' | k' != k ensures Lookup(r, k') == Lookup(s, k') {
        LookupReplace(s, k, v, k');
      }
    } else {
      LookupAppend(s, Field(k, v), k);
      forall k' | k' != k ensures Lookup(r, k') == Lookup(s, k') {
        LookupAppend(s, Field(k, v), k');
      }
      assert KeysOf(r) == KeysOf(s) + [k];
    }
  }

  /**
   * The dictionary built by assigning the fields of `s` one after another,
   * starting from `acc`: how a parsed JSON object, or a spread of two
   * objects, comes to be.
   */
  function PutAll(acc: Snapshot, s: Snapshot): Snapshot
    decreases |s|
  {
    if s == [] then acc else PutAll(Put(acc, s[0].key, s[0].value), s[1..])
  }

  lemma PutFresh(acc: Snapshot, k: string, v: int)
    requires k !in KeysOf(acc)
    ensures Put(acc, k, v) == acc + [Field(k, v)]
  {
  }

  /** No key of `s` occurs in `acc`. */
  ghost predicate FreshKeys(acc: Snapshot, s: Snapshot) {
    forall i :: 0 <= i < |s| ==> s[i].key !in KeysOf(acc)
  }

  /** Assigning fresh, distinct keys one by one appends them in order. */
  lemma {:induction false} PutAllFresh(acc: Snapshot, s: Snapshot)
    requires UniqueKeys(s) && FreshKeys(acc, s)
    ensures PutAll(acc, s) == acc + s
    decreases |s|
  {
    if s != [] {
      var acc' := acc + [s[0]];
      PutAllStep(acc, s);
      UniqueTail(s);
      FreshAfterPut(acc, s);
      PutAllFresh(acc', s[1..]);
      AppendShift(acc, s);
    }
  }

  lemma AppendShift(acc: Snapshot, s: Snapshot)
    requires s != []
    ensures (acc + [s[0]]) + s[1..] == acc + s
  {
    assert s == [s[0]] + s[1..];
  }

  lemma PutAllStep(acc: Snapshot, s: Snapshot)
    requires s != [] && FreshKeys(acc, s)
    ensures PutAll(acc, s) == PutAll(acc + [s[0]], s[1..])
  {
    PutFresh(acc, s[0].key, s[0].value);
  }

  lemma UniqueTail(s: Snapshot)
    requires s != [] && UniqueKeys(s)
    ensures UniqueKeys(s[1..])
  {
    forall i, j | 0 <= i < j < |s[1..]| ensures s[1..][i].key != s[1..][j].key {
      assert s[1..][i] == s[i + 1] && s[1..][j] == s[j + 1];
    }
  }

  /** Splitting off the last field: the rest is unique and does not hold its key. */
  lemma UniqueInit(s: Snapshot)
    requires s != [] && UniqueKeys(s)
    ensures UniqueKeys(s[..|s| - 1])
    ensures s[|s| - 1].key !in KeysOf(s[..|s| - 1])
  {
    var init := s[..|s| - 1];
    forall i, j | 0 <= i < j < |init| ensures init[i].key != init[j].key {
      assert init[i] == s[i] && init[j] == s[j];
    }
  }

  /** The keys of a dictionary with one more field at the end. */
  lemma KeysOfInit(s: Snapshot)
    requires s != []
    ensures KeysOf(s) == KeysOf(s[..|s| - 1]) + [s[|s| - 1].key]
  {
  }

  lemma FreshAfterPut(acc: Snapshot, s: Snapshot)
    requires s != [] && UniqueKeys(s) && FreshKeys(acc, s)
    ensures FreshKeys(acc + [s[0]], s[1..])
  {
    var ks := KeysOf(acc + [s[0]]);
    assert ks == KeysOf(acc) + [s[0].key];
    forall i | 0 <= i < |s| - 1 ensures s[1..][i].key !in ks {
      assert s[1..][i] == s[i + 1];
      assert s[0].key != s[i + 1].key;
    }
  }
}
