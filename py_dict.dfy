/**
 * A Python dict with string keys, as the program builds and iterates it:
 * an insertion-ordered list of (key, value) entries.  Assigning to a key
 * that is already present replaces the value in place, so the key keeps
 * its position; assigning to a new key appends an entry.
 */
module PyDict {
  import opened Results

  type Dict<V> = seq<(string, V)>

  /** `list(d.keys())` */
  function Keys<V>(d: Dict<V>): seq<string> {
    seq(|d|, i requires 0 <= i < |d| => d[i].0)
  }

  /** `list(d.values())` */
  function Values<V>(d: Dict<V>): seq<V> {
    seq(|d|, i requires 0 <= i < |d| => d[i].1)
  }

  /** Every key occurs once, as in any Python dict. */
  ghost predicate DistinctKeys<V>(d: Dict<V>) {
    forall i, j :: 0 <= i < j < |d| ==> d[i].0 != d[j].0
  }

  /** `d[k]`, or None where Python would raise KeyError. */
  function Get<V>(d: Dict<V>, k: string): Option<V> {
    if |d| == 0 then None
    else if d[0].0 == k then Some(d[0].1)
    else Get(d[1..], k)
  }

  /** `d[k] = v` */
  function Insert<V>(d: Dict<V>, k: string, v: V): (r: Dict<V>)
    ensures k in Keys(d) ==> Keys(r) == Keys(d)
    ensures k !in Keys(d) ==> r == d + [(k, v)]
  {
    if |d| == 0 then
      [(k, v)]
    else if d[0].0 == k then
      assert Keys(d)[0] == k;
      assert Keys([(k, v)] + d[1..]) == Keys(d);
      [(k, v)] + d[1..]
    else
      var rest := Insert(d[1..], k, v);
      assert Keys(d) == [d[0].0] + Keys(d[1..]);
      assert Keys([d[0]] + rest) == [d[0].0] + Keys(rest);
      [d[0]] + rest
  }

  /** After `d[k] = v`, `d[k]` is v and every other key looks up what it did before. */
  lemma {:induction false} InsertLookup<V>(d: Dict<V>, k: string, v: V, k': string)
    ensures Get(Insert(d, k, v), k) == Some(v)
    ensures k' != k ==> Get(Insert(d, k, v), k') == Get(d, k')
  {
    if |d| > 0 && d[0].0 != k {
      InsertLookup(d[1..], k, v, k');
    }
  }

  /** Assignment keeps every key unique. */
  lemma InsertKeepsKeysDistinct<V>(d: Dict<V>, k: string, v: V)
    requires DistinctKeys(d)
    ensures DistinctKeys(Insert(d, k, v))
  {
    var r := Insert(d, k, v);
    if k in Keys(d) {
      forall i, j | 0 <= i < j < |r| ensures r[i].0 != r[j].0 {
        assert r[i].0 == Keys(r)[i] == d[i].0;
        assert r[j].0 == Keys(r)[j] == d[j].0;
      }
    } else {
      forall i | 0 <= i < |d| ensures d[i].0 != k {
        assert Keys(d)[i] == d[i].0;
      }
    }
  }

  /**
   * A dict comprehension or a sequence of assignments: the entries of `ps`
   * assigned one after the other, starting from the empty dict.
   */
  function FromPairs<V>(ps: seq<(string, V)>): (r: Dict<V>)
    ensures DistinctKeys(r)
    ensures |r| <= |ps|
    ensures forall k :: k in Keys(r) <==> k in Keys(ps)
  {
    if |ps| == 0 then []
    else
      var n := |ps| - 1;
      var prefix := FromPairs(ps[..n]);
      InsertKeepsKeysDistinct(prefix, ps[n].0, ps[n].1);
      assert Keys(ps) == Keys(ps[..n]) + [ps[n].0];
      assert ps[n].0 !in Keys(prefix) ==> Keys(prefix + [ps[n]]) == Keys(prefix) + [ps[n].0];
      Insert(prefix, ps[n].0, ps[n].1)
  }

  /** The value of the last pair with key `k`: the one an assignment sequence leaves behind. */
  function LastValue<V>(ps: seq<(string, V)>, k: string): Option<V> {
    if |ps| == 0 then None
    else if ps[|ps| - 1].0 == k then Some(ps[|ps| - 1].1)
    else LastValue(ps[..|ps| - 1], k)
  }

  /** Later pairs win: looking up `k` in the dict built from `ps` finds the last value given for `k`. */
  lemma {:induction false} FromPairsLookup<V>(ps: seq<(string, V)>, k: string)
    ensures Get(FromPairs(ps), k) == LastValue(ps, k)
  {
    if |ps| > 0 {
      var n := |ps| - 1;
      FromPairsLookup(ps[..n], k);
      InsertLookup(FromPairs(ps[..n]), ps[n].0, ps[n].1, k);
    }
  }

  /** With distinct keys nothing collapses: the dict lists the pairs in their order. */
  lemma {:induction false} FromDistinctPairs<V>(ps: seq<(string, V)>)
    requires DistinctKeys(ps)
    ensures FromPairs(ps) == ps
  {
    if |ps| > 0 {
      var n := |ps| - 1;
      FromDistinctPairs(ps[..n]);
      var keys := Keys(ps[..n]);
      forall j | 0 <= j < n ensures keys[j] != ps[n].0 {
        assert keys[j] == ps[..n][j].0 == ps[j].0;
      }
      assert ps[..n] + [ps[n]] == ps;
    }
  }

  /** Looking up the key of entry i finds the value of entry i. */
  lemma {:induction false} GetEntry<V>(d: Dict<V>, i: nat)
    requires DistinctKeys(d) && i < |d|
    ensures Get(d, d[i].0) == Some(d[i].1)
  {
    if i > 0 {
      assert d[0].0 != d[i].0;
      GetEntry(d[1..], i - 1);
    }
  }
}
