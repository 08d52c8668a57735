/** Grouping by a string key with a JS `Map` filled in a `forEach` loop: the keys are kept in
    the order in which they are first inserted. */
module Grouping {
  import opened Seqs

  /** Some element of `s` has key `k`. */
  ghost predicate HasKey<T>(s: seq<T>, key: T -> string, k: string) {
    exists j :: 0 <= j < |s| && key(s[j]) == k
  }

  /** The distinct keys of `s` in order of first appearance. */
  function Keys<T>(s: seq<T>, key: T -> string): (r: seq<string>)
    ensures NoDup(r)
    ensures forall j :: 0 <= j < |s| ==> key(s[j]) in r
  {
    if s == [] then []
    else
      var s' := s[..|s| - 1];
      var p := Keys(s', key);
      assert forall j :: 0 <= j < |s'| ==> s'[j] == s[j];
      if key(s[|s| - 1]) in p then p else p + [key(s[|s| - 1])]
  }

  /** One more element adds its key at the end, unless the key is already present. */
  lemma KeysSnoc<T>(s: seq<T>, x: T, key: T -> string)
    ensures Keys(s + [x], key) == if key(x) in Keys(s, key) then Keys(s, key) else Keys(s, key) + [key(x)]
  {
    assert (s + [x])[..|s|] == s;
  }

  /** Every key listed occurs in `s`. */
  lemma {:induction false} KeysOccur<T>(s: seq<T>, key: T -> string, k: string)
    requires k in Keys(s, key)
    ensures HasKey(s, key, k)
  {
    var s' := s[..|s| - 1];
    var x := s[|s| - 1];
    assert s == s' + [x];
    KeysSnoc(s', x, key);
    if k in Keys(s', key) {
      KeysOccur(s', key, k);
      var j :| 0 <= j < |s'| && key(s'[j]) == k;
      assert s[j] == s'[j];
    } else {
      assert key(s[|s| - 1]) == k;
    }
  }

  /** The keys are exactly the keys occurring in `s`. */
  lemma KeysIff<T>(s: seq<T>, key: T -> string, k: string)
    ensures k in Keys(s, key) <==> HasKey(s, key, k)
  {
    if k in Keys(s, key) {
      KeysOccur(s, key, k);
    }
  }

  /** The index of the first element with key `k`. */
  function FirstIndex<T>(s: seq<T>, key: T -> string, k: string): (i: nat)
    requires k in Keys(s, key)
    ensures i < |s| && key(s[i]) == k
    ensures forall j :: 0 <= j < i ==> key(s[j]) != k
  {
    var s' := s[..|s| - 1];
    assert forall j :: 0 <= j < |s'| ==> s'[j] == s[j];
    if k in Keys(s', key) then FirstIndex(s', key, k)
    else
      assert forall j :: 0 <= j < |s'| ==> key(s'[j]) in Keys(s', key);
      |s| - 1
  }

  /** Appending an element does not move the first occurrence of a key already present. */
  lemma FirstIndexSnoc<T>(s: seq<T>, x: T, key: T -> string, k: string)
    requires k in Keys(s, key)
    ensures k in Keys(s + [x], key)
    ensures FirstIndex(s + [x], key, k) == FirstIndex(s, key, k)
  {
    assert (s + [x])[..|s|] == s;
    KeysSnoc(s, x, key);
  }

  /** `Keys` lists the keys in the order of their first occurrence in `s`. */
  lemma {:induction false} KeysInFirstAppearanceOrder<T>(s: seq<T>, key: T -> string, i: nat, j: nat)
    requires i < j < |Keys(s, key)|
    ensures FirstIndex(s, key, Keys(s, key)[i]) < FirstIndex(s, key, Keys(s, key)[j])
  {
    var s' := s[..|s| - 1];
    var x := s[|s| - 1];
    assert s == s' + [x];
    KeysSnoc(s', x, key);
    var ks := Keys(s', key);
    FirstIndexSnoc(s', x, key, Keys(s, key)[i]);
    if j < |ks| {
      FirstIndexSnoc(s', x, key, ks[j]);
      KeysInFirstAppearanceOrder(s', key, i, j);
    }
  }

  /** The test "has key `k`" used to filter one group's elements. */
  function KeyIs<T>(key: T -> string, k: string): T -> bool {
    x => key(x) == k
  }

  /** The elements of group `k`, in order. */
  function Group<T>(s: seq<T>, key: T -> string, k: string): seq<T> {
    Filter(s, KeyIs(key, k))
  }

  /** A group's count, one to one with `map.set(k, (map.get(k) || 0) + 1)`. */
  datatype KeyCount = KeyCount(name: string, count: nat)

  /** The map built by counting every element under its key, in insertion order. */
  function CountTally<T>(s: seq<T>, key: T -> string): (r: seq<KeyCount>)
    ensures |r| == |Keys(s, key)|
  {
    var ks := Keys(s, key);
    seq(|ks|, i requires 0 <= i < |ks| => KeyCount(ks[i], |Group(s, key, ks[i])|))
  }

  function Name(e: KeyCount): string {
    e.name
  }

  function CountField(e: KeyCount): int {
    e.count
  }

  /** Position of the entry named `k`, or `|entries|` when there is none: `map.get`. */
  function Lookup<E>(entries: seq<E>, name: E -> string, k: string): (i: nat)
    ensures i <= |entries|
    ensures i < |entries| ==> name(entries[i]) == k
    ensures forall j :: 0 <= j < i ==> name(entries[j]) != k
  {
    if entries == [] then 0
    else if name(entries[0]) == k then 0
    else 1 + Lookup(entries[1..], name, k)
  }

  lemma GroupSnoc<T>(s: seq<T>, x: T, key: T -> string, k: string)
    ensures Group(s + [x], key, k) == Group(s, key, k) + (if key(x) == k then [x] else [])
  {
    FilterSnoc(s, x, KeyIs(key, k));
  }

  lemma GroupAbsent<T>(s: seq<T>, key: T -> string, k: string)
    requires k !in Keys(s, key)
    ensures Group(s, key, k) == []
  {
    FilterNone(s, KeyIs(key, k));
  }

  /** Entry `j` of the tally is key `j` with its group's size. */
  lemma CountTallyAt<T>(s: seq<T>, key: T -> string, j: nat)
    requires j < |Keys(s, key)|
    ensures CountTally(s, key)[j] == KeyCount(Keys(s, key)[j], |Group(s, key, Keys(s, key)[j])|)
  {
  }

  lemma CountTallySnocOldAt<T>(s: seq<T>, x: T, key: T -> string, i: nat, j: nat)
    requires i < |Keys(s, key)| && Keys(s, key)[i] == key(x)
    requires j < |Keys(s, key)| && Keys(s + [x], key) == Keys(s, key)
    ensures CountTally(s + [x], key)[j]
         == CountTally(s, key)[i := KeyCount(key(x), CountTally(s, key)[i].count + 1)][j]
  {
    var ks := Keys(s, key);
    GroupSnoc(s, x, key, ks[j]);
    CountTallyAt(s, key, j);
    CountTallyAt(s, key, i);
    CountTallyAt(s + [x], key, j);
    assert j != i ==> ks[j] != ks[i];
  }

  lemma CountTallySnocOld<T>(s: seq<T>, x: T, key: T -> string, i: nat)
    requires i < |Keys(s, key)| && Keys(s, key)[i] == key(x)
    ensures var t := CountTally(s, key);
            CountTally(s + [x], key) == t[i := KeyCount(key(x), t[i].count + 1)]
  {
    var t := CountTally(s, key);
    var u := t[i := KeyCount(key(x), t[i].count + 1)];
    KeysSnoc(s, x, key);
    var t' := CountTally(s + [x], key);
    assert |t'| == |u|;
    forall j | 0 <= j < |t| ensures t'[j] == u[j] {
      CountTallySnocOldAt(s, x, key, i, j);
    }
  }

  lemma CountTallySnocNew<T>(s: seq<T>, x: T, key: T -> string)
    requires key(x) !in Keys(s, key)
    ensures CountTally(s + [x], key) == CountTally(s, key) + [KeyCount(key(x), 1)]
  {
    var t := CountTally(s, key);
    var ks := Keys(s, key);
    var u := t + [KeyCount(key(x), 1)];
    KeysSnoc(s, x, key);
    assert Keys(s + [x], key) == ks + [key(x)];
    var t' := CountTally(s + [x], key);
    assert |t'| == |u|;
    forall j | 0 <= j < |t| ensures t'[j] == u[j] {
      GroupSnoc(s, x, key, ks[j]);
      CountTallyAt(s, key, j);
      CountTallyAt(s + [x], key, j);
    }
    GroupSnoc(s, x, key, key(x));
    GroupAbsent(s, key, key(x));
    CountTallyAt(s + [x], key, |t|);
    assert t'[|t|] == u[|t|];
  }

  /** Counting one more element: its entry goes up by one, or a new entry with count one is
      appended. */
  lemma CountTallySnoc<T>(s: seq<T>, x: T, key: T -> string)
    ensures var t := CountTally(s, key);
            var i := Lookup(t, Name, key(x));
            CountTally(s + [x], key) ==
              if i < |t| then t[i := KeyCount(key(x), t[i].count + 1)]
              else t + [KeyCount(key(x), 1)]
  {
    var t := CountTally(s, key);
    var ks := Keys(s, key);
    var i := Lookup(t, Name, key(x));
    assert forall j :: 0 <= j < |t| ==> t[j].name == ks[j];
    if i < |t| {
      CountTallySnocOld(s, x, key, i);
    } else {
      assert key(x) !in ks;
      CountTallySnocNew(s, x, key);
    }
  }

  /** The counts of all groups add up to the number of elements. */
  lemma {:induction false} CountTallySum<T>(s: seq<T>, key: T -> string)
    ensures SumInt(CountTally(s, key), CountField) == |s|
  {
    if s != [] {
      var s' := s[..|s| - 1];
      var x := s[|s| - 1];
      assert s == s' + [x];
      CountTallySum(s', key);
      CountTallySnoc(s', x, key);
      var t := CountTally(s', key);
      var i := Lookup(t, Name, key(x));
      if i < |t| {
        SumIntUpdate(t, i, KeyCount(key(x), t[i].count + 1), CountField);
      } else {
        SumIntSnoc(t, KeyCount(key(x), 1), CountField);
      }
    }
  }

  /** Entries are one per key, each the key's group size, and never zero. */
  lemma CountTallyEntries<T>(s: seq<T>, key: T -> string)
    ensures DistinctBy(CountTally(s, key), Name)
    ensures forall i :: 0 <= i < |CountTally(s, key)| ==>
              CountTally(s, key)[i].count == |Group(s, key, CountTally(s, key)[i].name)| > 0
  {
    var t := CountTally(s, key);
    var ks := Keys(s, key);
    forall i | 0 <= i < |t| ensures t[i].count == |Group(s, key, t[i].name)| > 0 {
      CountTallyAt(s, key, i);
      KeysOccur(s, key, ks[i]);
      var j :| 0 <= j < |s| && key(s[j]) == ks[i];
      FilterElements(s, KeyIs(key, ks[i]));
      assert s[j] in Group(s, key, ks[i]);
    }
    forall i, j | 0 <= i < j < |t| ensures Name(t[i]) != Name(t[j]) {
      CountTallyAt(s, key, i);
      CountTallyAt(s, key, j);
    }
  }

  /** A key has an entry exactly when some element carries it. */
  lemma CountTallyNames<T>(s: seq<T>, key: T -> string, k: string)
    ensures (exists i :: 0 <= i < |CountTally(s, key)| && CountTally(s, key)[i].name == k) <==> HasKey(s, key, k)
  {
    var t := CountTally(s, key);
    var ks := Keys(s, key);
    KeysIff(s, key, k);
    if k in ks {
      var i :| 0 <= i < |ks| && ks[i] == k;
      CountTallyAt(s, key, i);
    }
    forall i | 0 <= i < |t| && t[i].name == k ensures k in ks {
      CountTallyAt(s, key, i);
    }
  }

  /** `map.set(k, (map.get(k) || 0) + 1)` on the entries in insertion order. */
  function Bump(t: seq<KeyCount>, k: string): seq<KeyCount> {
    var i := Lookup(t, Name, k);
    if i < |t| then t[i := KeyCount(k, t[i].count + 1)] else t + [KeyCount(k, 1)]
  }

  /** The map after counting the elements of `s` one at a time. */
  function CountFold<T>(s: seq<T>, key: T -> string): seq<KeyCount> {
    if s == [] then [] else Bump(CountFold(s[..|s| - 1], key), key(s[|s| - 1]))
  }

  lemma CountFoldPrefixSnoc<T>(s: seq<T>, key: T -> string, k: nat)
    requires k < |s|
    ensures CountFold(s[..k + 1], key) == Bump(CountFold(s[..k], key), key(s[k]))
  {
    assert s[..k + 1][..k] == s[..k];
  }

  /** Counting one element at a time yields one entry per key with its group's size. */
  lemma {:induction false} CountFoldIsTally<T>(s: seq<T>, key: T -> string)
    ensures CountFold(s, key) == CountTally(s, key)
  {
    if s != [] {
      var s' := s[..|s| - 1];
      CountFoldIsTally(s', key);
      assert s == s' + [s[|s| - 1]];
      CountTallySnoc(s', s[|s| - 1], key);
    }
  }

  /** The keys occurring in `s`. */
  function KeySet<T>(s: seq<T>, key: T -> string): set<string> {
    set j | 0 <= j < |s| :: key(s[j])
  }

  /** The map's size is the number of distinct keys occurring in `s`. */
  lemma TallySizeIsDistinctKeys<T>(s: seq<T>, key: T -> string)
    ensures |CountTally(s, key)| == |KeySet(s, key)|
  {
    var ks := Keys(s, key);
    NoDupCard(ks);
    forall k | k in ks ensures k in KeySet(s, key) {
      KeysOccur(s, key, k);
    }
    assert (set x | x in ks) == KeySet(s, key);
  }
}
