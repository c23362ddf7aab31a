/**
 * PHP values as far as the router touches them, and PHP's ordered,
 * string-keyed arrays ("dictionaries") with the two operations the router
 * uses on them: element assignment `$a[$k] = $v` and `array_merge`.
 */
module Values {
  import opened Seqs

  datatype Option<+T> = None | Some(value: T)

  /**
   * A PHP value. Arrays are ordered and string-keyed. `Opaque` stands for a
   * value the model does not look into (an elapsed time, a stack trace).
   */
  datatype Value =
    | Null
    | Bool(b: bool)
    | Int(i: int)
    | Str(s: string)
    | Arr(entries: seq<(string, Value)>)
    | Opaque(tag: string)

  /** An ordered PHP array with string keys. */
  type Dict<V> = seq<(string, V)>

  function Keys<V>(d: Dict<V>): (ks: seq<string>)
    ensures |ks| == |d|
    ensures forall i :: 0 <= i < |d| ==> ks[i] == d[i].0
  {
    seq(|d|, i requires 0 <= i < |d| => d[i].0)
  }

  /** A PHP array never holds a key twice. */
  ghost predicate Unique<V>(d: Dict<V>) {
    forall i, j :: 0 <= i < j < |d| ==> d[i].0 != d[j].0
  }

  /** `$a[$k] ?? null`, with absence as None. */
  function Get<V>(d: Dict<V>, k: string): (r: Option<V>)
    ensures r.Some? <==> k in Keys(d)
  {
    if d == [] then None
    else if d[0].0 == k then Some(d[0].1)
    else Get(d[1..], k)
  }

  /**
   * `$a[$k] = $v`: an existing key keeps its position and takes the new
   * value; a new key is appended at the end.
   */
  function Put<V>(d: Dict<V>, k: string, v: V): Dict<V>
  {
    if d == [] then [(k, v)]
    else if d[0].0 == k then [(k, v)] + d[1..]
    else [d[0]] + Put(d[1..], k, v)
  }

  /** Assigning the entries of `s` one after another, in order. */
  function PutAll<V>(d: Dict<V>, s: seq<(string, V)>): Dict<V>
  {
    if s == [] then d else Put(PutAll(d, s[..|s| - 1]), s[|s| - 1].0, s[|s| - 1].1)
  }

  /**
   * `array_merge($a, $b)` for string keys: a key of `b` already in `a`
   * overrides the value in place, the others are appended in `b`'s order.
   */
  function Merge<V>(a: Dict<V>, b: Dict<V>): Dict<V>
  {
    PutAll(a, b)
  }

  /** The keys of `s` in order of first occurrence, each once. */
  function Dedup(s: seq<string>): (r: seq<string>)
  {
    if s == [] then []
    else if s[|s| - 1] in Dedup(s[..|s| - 1]) then Dedup(s[..|s| - 1])
    else Dedup(s[..|s| - 1]) + [s[|s| - 1]]
  }

  lemma {:induction false} DedupElements(s: seq<string>)
    ensures forall k :: k in Dedup(s) <==> k in s
  {
    if s != [] {
      DedupElements(s[..|s| - 1]);
      assert s == s[..|s| - 1] + [s[|s| - 1]];
    }
  }

  /** No element of `Dedup(s)` appears twice. */
  lemma {:induction false} DedupDistinct(s: seq<string>)
    ensures forall i, j :: 0 <= i < j < |Dedup(s)| ==> Dedup(s)[i] != Dedup(s)[j]
  {
    if s != [] {
      var init := Dedup(s[..|s| - 1]);
      DedupDistinct(s[..|s| - 1]);
      if s[|s| - 1] !in init {
        var r := init + [s[|s| - 1]];
        forall i, j | 0 <= i < j < |r| ensures r[i] != r[j] {
          if j == |init| {
            assert r[i] == init[i];
          } else {
            assert r[i] == init[i] && r[j] == init[j];
          }
        }
      }
    }
  }

  lemma {:induction false} PutGet<V>(d: Dict<V>, k: string, v: V, k': string)
    ensures Get(Put(d, k, v), k') == if k' == k then Some(v) else Get(d, k')
  {
    if d != [] && d[0].0 != k {
      PutGet(d[1..], k, v, k');
      assert Put(d, k, v)[1..] == Put(d[1..], k, v);
    }
  }

  /** Assignment keeps the order of the keys already there. */
  lemma {:induction false} PutKeys<V>(d: Dict<V>, k: string, v: V)
    ensures Keys(Put(d, k, v)) == if k in Keys(d) then Keys(d) else Keys(d) + [k]
  {
    if d != [] && d[0].0 != k {
      PutKeys(d[1..], k, v);
      assert Keys(d) == [d[0].0] + Keys(d[1..]);
      assert Keys(Put(d, k, v)) == [d[0].0] + Keys(Put(d[1..], k, v));
    } else if d != [] {
      assert Keys(Put(d, k, v)) == [k] + Keys(d[1..]);
      assert Keys(d) == [k] + Keys(d[1..]);
    }
  }

  lemma UniqueByKeys<V>(d: Dict<V>)
    ensures Unique(d) <==> forall i, j :: 0 <= i < j < |Keys(d)| ==> Keys(d)[i] != Keys(d)[j]
  {
    var ks := Keys(d);
    assert forall i :: 0 <= i < |d| ==> ks[i] == d[i].0;
  }

  lemma {:induction false} PutUnique<V>(d: Dict<V>, k: string, v: V)
    requires Unique(d)
    ensures Unique(Put(d, k, v))
  {
    PutKeys(d, k, v);
    UniqueByKeys(d);
    UniqueByKeys(Put(d, k, v));
  }

  lemma {:induction false} PutAllUnique<V>(d: Dict<V>, s: seq<(string, V)>)
    requires Unique(d)
    ensures Unique(PutAll(d, s))
  {
    if s != [] {
      PutAllUnique(d, s[..|s| - 1]);
      PutUnique(PutAll(d, s[..|s| - 1]), s[|s| - 1].0, s[|s| - 1].1);
    }
  }

  /** The value of a key after a run of assignments: the last one assigned wins. */
  lemma {:induction false} PutAllGet<V>(d: Dict<V>, s: seq<(string, V)>, k: string)
    ensures Get(PutAll(d, s), k) == if k in Keys(s) then Get(Reverse(s), k) else Get(d, k)
  {
    if s != [] {
      var init, last := s[..|s| - 1], s[|s| - 1];
      PutAllGet(d, init, k);
      PutGet(PutAll(d, init), last.0, last.1, k);
      ReverseSnoc(init, last);
      KeysInit(s);
    }
  }

  /** The keys of all but the last entry, and the last key. */
  lemma KeysInit<V>(s: seq<(string, V)>)
    requires s != []
    ensures Keys(s[..|s| - 1]) == Keys(s)[..|s| - 1] && Keys(s)[|s| - 1] == s[|s| - 1].0
    ensures forall k :: k in Keys(s) <==> k in Keys(s[..|s| - 1]) || k == s[|s| - 1].0
  {
    var ks := Keys(s);
    assert ks == ks[..|s| - 1] + [ks[|s| - 1]];
  }

  function Reverse<V>(s: seq<(string, V)>): (r: seq<(string, V)>)
    ensures |r| == |s|
  {
    if s == [] then [] else [s[|s| - 1]] + Reverse(s[..|s| - 1])
  }

  lemma ReverseSnoc<V>(s: seq<(string, V)>, x: (string, V))
    ensures Reverse(s + [x]) == [x] + Reverse(s)
  {
    assert (s + [x])[..|s|] == s;
  }

  /** The keys after a run of assignments: the old ones in place, then the new ones in first-occurrence order. */
  lemma {:induction false} PutAllKeys<V>(d: Dict<V>, s: seq<(string, V)>)
    requires Unique(d)
    ensures Keys(PutAll(d, s)) == Dedup(Keys(d) + Keys(s))
  {
    if s == [] {
      DedupUnique(Keys(d));
      assert Keys(d) + Keys(s) == Keys(d);
    } else {
      var init, last := s[..|s| - 1], s[|s| - 1];
      PutAllKeys(d, init);
      PutKeys(PutAll(d, init), last.0, last.1);
      KeysInit(s);
      InitAppend(Keys(d), Keys(s));
    }
  }

  lemma {:induction false} DedupUnique(s: seq<string>)
    requires forall i, j :: 0 <= i < j < |s| ==> s[i] != s[j]
    ensures Dedup(s) == s
  {
    if s != [] {
      DedupUnique(s[..|s| - 1]);
      assert s[|s| - 1] !in s[..|s| - 1];
      assert s == s[..|s| - 1] + [s[|s| - 1]];
    }
  }

  /**
   * `array_merge` with string keys: a key of `b` takes `b`'s value, any
   * other key keeps `a`'s.
   */
  lemma MergeGet<V>(a: Dict<V>, b: Dict<V>, k: string)
    requires Unique(b)
    ensures Get(Merge(a, b), k) == if Get(b, k).Some? then Get(b, k) else Get(a, k)
  {
    PutAllGet(a, b, k);
    if k in Keys(b) {
      UniqueReverseGet(b, k);
    }
  }

  lemma {:induction false} UniqueReverseGet<V>(s: seq<(string, V)>, k: string)
    requires Unique(s)
    ensures Get(Reverse(s), k) == Get(s, k)
  {
    if s != [] {
      var init, last := s[..|s| - 1], s[|s| - 1];
      assert Unique(init) by {
        forall i, j | 0 <= i < j < |init| ensures init[i].0 != init[j].0 {
          assert init[i] == s[i] && init[j] == s[j];
        }
      }
      UniqueReverseGet(init, k);
      GetCons(last, Reverse(init), k);
      assert s == init + [last];
      GetSnoc(init, last, k);
      if last.0 == k {
        assert k !in Keys(init) by {
          forall i | 0 <= i < |init| ensures init[i].0 != k {
            assert init[i] == s[i];
          }
        }
      }
    }
  }

  lemma GetCons<V>(x: (string, V), d: Dict<V>, k: string)
    ensures Get([x] + d, k) == if x.0 == k then Some(x.1) else Get(d, k)
  {
    assert ([x] + d)[1..] == d;
  }

  lemma {:induction false} GetSnoc<V>(s: seq<(string, V)>, x: (string, V), k: string)
    ensures Get(s + [x], k) == if k in Keys(s) then Get(s, k) else if x.0 == k then Some(x.1) else None
  {
    if s != [] {
      assert (s + [x])[1..] == s[1..] + [x];
      GetSnoc(s[1..], x, k);
      assert Keys(s) == [s[0].0] + Keys(s[1..]);
    }
  }

  /**
   * `array_merge` keeps every key of `a` at its position: a later key
   * overrides a value but never moves it.
   */
  lemma MergeKeepsPositions<V>(a: Dict<V>, b: Dict<V>)
    requires Unique(a)
    ensures |Merge(a, b)| >= |a|
    ensures forall i :: 0 <= i < |a| ==> Merge(a, b)[i].0 == a[i].0
  {
    PutAllKeys(a, b);
    DedupPrefix(Keys(a), Keys(b));
  }

  lemma {:induction false} DedupPrefix(s: seq<string>, t: seq<string>)
    requires forall i, j :: 0 <= i < j < |s| ==> s[i] != s[j]
    ensures |Dedup(s + t)| >= |s| && Dedup(s + t)[..|s|] == s
  {
    if t == [] {
      assert s + t == s;
      DedupUnique(s);
    } else {
      DedupPrefix(s, t[..|t| - 1]);
      assert (s + t)[..|s + t| - 1] == s + t[..|t| - 1];
    }
  }

  /** Assigning `s` and then `t` is assigning `s + t`. */
  lemma {:induction false} PutAllAppend<V>(d: Dict<V>, s: seq<(string, V)>, t: seq<(string, V)>)
    ensures PutAll(d, s + t) == PutAll(PutAll(d, s), t)
    decreases |t|
  {
    if t == [] {
      assert s + t == s;
    } else {
      var all := s + t;
      assert all[..|all| - 1] == s + t[..|t| - 1];
      PutAllAppend(d, s, t[..|t| - 1]);
    }
  }

  /** Assigning to a key already present replaces its entry where it stands. */
  lemma {:induction false} PutAt<V>(d: Dict<V>, i: nat, v: V)
    requires i < |d| && Unique(d)
    ensures Put(d, d[i].0, v) == d[i := (d[i].0, v)]
  {
    if i > 0 {
      PutAt(d[1..], i - 1, v);
      assert d[i := (d[i].0, v)] == [d[0]] + d[1..][i - 1 := (d[i].0, v)];
    }
  }

  /** The value of a key is the one at its first position. */
  lemma {:induction false} GetAt<V>(d: Dict<V>, i: nat)
    requires i < |d| && forall j :: 0 <= j < i ==> d[j].0 != d[i].0
    ensures Get(d, d[i].0) == Some(d[i].1)
  {
    if i > 0 {
      GetAt(d[1..], i - 1);
    }
  }
}
