/**
 * A row read from an uploaded file: a PHP array with string keys, kept in
 * insertion order with each key once. A cell may be null (an empty
 * spreadsheet cell), which `??` treats like a missing key.
 */
module Rows {
  import opened Wrappers

  type Cell = Option<string>
  type Row = seq<(string, Cell)>

  function Keys(r: Row): (ks: seq<string>)
    ensures |ks| == |r| && forall i :: 0 <= i < |r| ==> ks[i] == r[i].0
  {
    if r == [] then [] else [r[0].0] + Keys(r[1..])
  }

  predicate Distinct(ks: seq<string>)
  {
    forall i, j :: 0 <= i < j < |ks| ==> ks[i] != ks[j]
  }

  /** The position of key `k`, or -1. */
  function IndexOf(r: Row, k: string): (i: int)
    ensures -1 <= i < |r|
    ensures i >= 0 ==> r[i].0 == k && forall j :: 0 <= j < i ==> r[j].0 != k
    ensures i == -1 ==> forall j :: 0 <= j < |r| ==> r[j].0 != k
  {
    if r == [] then -1
    else if r[0].0 == k then 0
    else
      var i := IndexOf(r[1..], k);
      if i < 0 then -1 else i + 1
  }

  /** `$row[$k] ?? null`: the value of `k` when present and not null. */
  function Get(r: Row, k: string): (v: Cell)
    ensures v.Some? <==> exists i :: 0 <= i < |r| && r[i].0 == k && r[i].1.Some?
                                     && forall j :: 0 <= j < i ==> r[j].0 != k
    ensures v.Some? ==> exists i :: 0 <= i < |r| && r[i] == (k, v)
  {
    var i := IndexOf(r, k);
    if i < 0 then None else r[i].1
  }

  /** `$row[$k] = $v`: overwrite in place when the key exists, else append. */
  function Put(r: Row, k: string, v: Cell): (r': Row)
    ensures k in Keys(r) ==> |r'| == |r| && Keys(r') == Keys(r)
    ensures k !in Keys(r) ==> r' == r + [(k, v)]
    ensures IndexOf(r', k) >= 0 && r'[IndexOf(r', k)] == (k, v)
  {
    var i := IndexOf(r, k);
    if i < 0 then
      assert k !in Keys(r);
      var r' := r + [(k, v)];
      assert r'[|r|].0 == k;
      assert forall j :: 0 <= j < |r| ==> r'[j] == r[j];
      r'
    else
      var r' := r[i := (k, v)];
      assert Keys(r') == Keys(r);
      assert IndexOf(r', k) == i;
      r'
  }

  /** PHP `array_combine`: keys from `hs`, values from `cs`; a later duplicate key overwrites the earlier value. */
  function Combine(hs: seq<string>, cs: seq<Cell>): Row
    requires |hs| == |cs|
    decreases |hs|
  {
    if hs == [] then []
    else Put(Combine(hs[..|hs| - 1], cs[..|cs| - 1]), hs[|hs| - 1], cs[|cs| - 1])
  }

  /** With distinct headers, `array_combine` is the position-wise zip. */
  lemma {:induction false} CombineZips(hs: seq<string>, cs: seq<Cell>)
    requires |hs| == |cs| && Distinct(hs)
    ensures |Combine(hs, cs)| == |hs|
    ensures forall i :: 0 <= i < |hs| ==> Combine(hs, cs)[i] == (hs[i], cs[i])
    decreases |hs|
  {
    if hs != [] {
      var n := |hs| - 1;
      var prev := Combine(hs[..n], cs[..n]);
      CombineZips(hs[..n], cs[..n]);
      assert hs[n] !in Keys(prev) by {
        forall i | 0 <= i < n ensures Keys(prev)[i] != hs[n] {
          assert Keys(prev)[i] == hs[i];
        }
      }
    }
  }

  /** With distinct headers, each header reads back its own cell. */
  lemma CombineGet(hs: seq<string>, cs: seq<Cell>, j: nat)
    requires |hs| == |cs| && Distinct(hs) && j < |hs|
    ensures Get(Combine(hs, cs), hs[j]) == cs[j]
    ensures Keys(Combine(hs, cs)) == hs
  {
    CombineZips(hs, cs);
    var r := Combine(hs, cs);
    assert IndexOf(r, hs[j]) == j by {
      var i := IndexOf(r, hs[j]);
      assert r[j].0 == hs[j];
      assert i >= 0 && i <= j;
    }
  }
}
