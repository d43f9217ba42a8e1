/** Python dictionaries built by `dict(zip(keys, values))`, as association lists:
    keys keep the position of their first insertion and a later pair overwrites the
    value of an earlier one. */
module Dicts {
  import opened Seqs

  type Dict = seq<(string, string)>

  function Keys(d: Dict): (ks: seq<string>)
    ensures |ks| == |d|
    ensures forall i :: 0 <= i < |d| ==> ks[i] == d[i].0
  {
    seq(|d|, i requires 0 <= i < |d| => d[i].0)
  }

  function Values(d: Dict): (vs: seq<string>)
    ensures |vs| == |d|
    ensures forall i :: 0 <= i < |d| ==> vs[i] == d[i].1
  {
    seq(|d|, i requires 0 <= i < |d| => d[i].1)
  }

  predicate HasKey(d: Dict, k: string) {
    k in Keys(d)
  }

  /** `d[k]`. */
  function Get(d: Dict, k: string): string
    requires HasKey(d, k)
  {
    d[FirstIndex(Keys(d), k)].1
  }

  /** `d[k] = v`: overwrite in place if present, append otherwise. */
  function Put(d: Dict, k: string, v: string): (r: Dict)
    ensures Keys(r) == if HasKey(d, k) then Keys(d) else Keys(d) + [k]
  {
    if HasKey(d, k) then
      var i := FirstIndex(Keys(d), k);
      d[i := (k, v)]
    else d + [(k, v)]
  }

  /** `dict(zip(ks, vs))`, built pair by pair. */
  function Zip(ks: seq<string>, vs: seq<string>): (d: Dict)
    requires |ks| == |vs|
    decreases |ks|
  {
    if ks == [] then []
    else Put(Zip(ks[..|ks| - 1], vs[..|vs| - 1]), ks[|ks| - 1], vs[|vs| - 1])
  }

  /** Index of the last occurrence of `k` in `ks`. */
  function LastIndex(ks: seq<string>, k: string): (i: nat)
    requires k in ks
    ensures i < |ks| && ks[i] == k
    ensures forall j :: i < j < |ks| ==> ks[j] != k
  {
    if ks[|ks| - 1] == k then |ks| - 1 else LastIndex(ks[..|ks| - 1], k)
  }

  lemma {:induction false} PutGet(d: Dict, k: string, v: string, q: string)
    requires Distinct(Keys(d))
    ensures Distinct(Keys(Put(d, k, v)))
    ensures HasKey(Put(d, k, v), q) <==> HasKey(d, q) || q == k
    ensures HasKey(Put(d, k, v), q) ==>
      Get(Put(d, k, v), q) == if q == k then v else Get(d, q)
  {
    var r := Put(d, k, v);
    if HasKey(d, k) {
      var i := FirstIndex(Keys(d), k);
      assert Keys(r) == Keys(d);
      if HasKey(r, q) {
        var jr := FirstIndex(Keys(r), q);
        var jd := FirstIndex(Keys(d), q);
        assert jr == jd;
      }
    } else {
      assert Keys(r) == Keys(d) + [k];
      if HasKey(d, q) {
        var jd := FirstIndex(Keys(d), q);
        assert Keys(r)[jd] == q;
        assert FirstIndex(Keys(r), q) == jd;
      } else if q == k {
        assert Keys(r)[|d|] == k;
        assert FirstIndex(Keys(r), q) == |d|;
      }
    }
  }

  /** The keys of `dict(zip(ks, vs))` are the distinct keys in order of first appearance. */
  lemma {:induction false} ZipKeys(ks: seq<string>, vs: seq<string>)
    requires |ks| == |vs|
    ensures Keys(Zip(ks, vs)) == Unique(ks)
    decreases |ks|
  {
    if ks != [] {
      var n := |ks| - 1;
      ZipKeys(ks[..n], vs[..n]);
    }
  }

  /** Each key of `dict(zip(ks, vs))` maps to the value paired with its LAST occurrence. */
  lemma {:induction false} ZipGet(ks: seq<string>, vs: seq<string>, q: string)
    requires |ks| == |vs| && q in ks
    ensures HasKey(Zip(ks, vs), q) && Get(Zip(ks, vs), q) == vs[LastIndex(ks, q)]
    decreases |ks|
  {
    var n := |ks| - 1;
    var pk, pv := ks[..n], vs[..n];
    var d := Zip(pk, pv);
    assert Zip(ks, vs) == Put(d, ks[n], vs[n]);
    ZipKeys(pk, pv);
    PutGet(d, ks[n], vs[n], q);
    if q == ks[n] {
      assert LastIndex(ks, q) == n;
    } else {
      LastIndexBefore(ks, q);
      ZipGet(pk, pv, q);
    }
  }

  /** A key other than the last one has its last occurrence among the earlier ones. */
  lemma LastIndexBefore(ks: seq<string>, q: string)
    requires q in ks && q != ks[|ks| - 1]
    ensures q in ks[..|ks| - 1] && LastIndex(ks, q) == LastIndex(ks[..|ks| - 1], q)
  {
    var j :| 0 <= j < |ks| && ks[j] == q;
    assert ks[..|ks| - 1][j] == q;
  }

  /** A key is in `dict(zip(ks, vs))` exactly when it occurs in `ks`. */
  lemma ZipHasKey(ks: seq<string>, vs: seq<string>, q: string)
    requires |ks| == |vs|
    ensures HasKey(Zip(ks, vs), q) <==> q in ks
  {
    ZipKeys(ks, vs);
  }

  /** With distinct keys, the k-th value belongs to the k-th key. */
  lemma ValuesInKeyOrder(d: Dict, k: nat)
    requires Distinct(Keys(d)) && k < |d|
    ensures HasKey(d, Keys(d)[k]) && Values(d)[k] == Get(d, Keys(d)[k])
  {
    assert FirstIndex(Keys(d), Keys(d)[k]) == k;
  }
}
