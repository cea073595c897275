/**
 * The metadata record of one photo, as `exif_vals` builds it from the lines
 * the metadata tool prints: `dict(zip(keys, lines + [None]*5))`.  Running
 * the tool is not modelled; its output lines are the input.
 */
module Metadata {
  import opened Wrappers

  /** A Python dict from tag key to value, `None` for a missing value. */
  type Meta = map<string, Option<string>>

  /** The five keys, in the order in which the tool prints the requested tags. */
  const Keys: seq<string> := ["Make", "Model", "FL", "FL35", "FL35Comp"]

  /** Python's `zip`: pairs element by element and stops at the shorter argument. */
  function Zip<A, B>(xs: seq<A>, ys: seq<B>): (r: seq<(A, B)>)
    ensures |r| == if |xs| <= |ys| then |xs| else |ys|
    ensures forall i :: 0 <= i < |r| ==> r[i] == (xs[i], ys[i])
  {
    if xs == [] || ys == [] then [] else [(xs[0], ys[0])] + Zip(xs[1..], ys[1..])
  }

  /** Python's `dict(pairs)`: a later pair overrides an earlier one with the same key. */
  function DictOf<K, V>(pairs: seq<(K, V)>): (m: map<K, V>)
    ensures m.Keys == set i | 0 <= i < |pairs| :: pairs[i].0
    ensures pairs != [] ==> m[pairs[|pairs| - 1].0] == pairs[|pairs| - 1].1
  {
    if pairs == [] then map[]
    else
      var last := pairs[|pairs| - 1];
      var init := pairs[..|pairs| - 1];
      assert forall i :: 0 <= i < |init| ==> init[i] == pairs[i];
      DictOf(init)[last.0 := last.1]
  }

  /** With distinct keys, `dict(pairs)` maps each key to the value paired with it. */
  lemma {:induction false} DictOfLookup<K, V>(pairs: seq<(K, V)>, i: nat)
    requires forall a, b :: 0 <= a < b < |pairs| ==> pairs[a].0 != pairs[b].0
    requires i < |pairs|
    ensures DictOf(pairs)[pairs[i].0] == pairs[i].1
  {
    if i < |pairs| - 1 {
      var init := pairs[..|pairs| - 1];
      assert init[i] == pairs[i];
      DictOfLookup(init, i);
    }
  }

  /** `out.strip().splitlines() + [None]*5`: every line present, then five Nones. */
  function Padded(lines: seq<string>): (r: seq<Option<string>>)
    ensures |r| == |lines| + 5
    ensures forall i :: 0 <= i < |lines| ==> r[i] == Some(lines[i])
    ensures forall i :: |lines| <= i < |r| ==> r[i] == None
  {
    seq(|lines|, i requires 0 <= i < |lines| => Some(lines[i])) + [None, None, None, None, None]
  }

  /**
   * `exif_vals`: exactly the five keys, the i-th output line under the i-th
   * key, `None` under the keys past the last line, and lines past the fifth
   * ignored.
   */
  function ExifVals(lines: seq<string>): (meta: Meta)
    ensures meta.Keys == {"Make", "Model", "FL", "FL35", "FL35Comp"}
    ensures forall i :: 0 <= i < 5 ==>
      meta[Keys[i]] == if i < |lines| then Some(lines[i]) else None
  {
    var pairs := Zip(Keys, Padded(lines));
    assert |pairs| == 5;
    assert (set i | 0 <= i < |pairs| :: pairs[i].0) == {"Make", "Model", "FL", "FL35", "FL35Comp"} by {
      assert pairs[0].0 == "Make" && pairs[1].0 == "Model" && pairs[2].0 == "FL";
      assert pairs[3].0 == "FL35" && pairs[4].0 == "FL35Comp";
    }
    forall i | 0 <= i < 5
      ensures DictOf(pairs)[Keys[i]] == if i < |lines| then Some(lines[i]) else None
    {
      DictOfLookup(pairs, i);
    }
    DictOf(pairs)
  }

  /** `meta.get(key)`: the stored value, or `None` for a key that is not there. */
  function Get(meta: Meta, key: string): Option<string>
  {
    if key in meta then meta[key] else None
  }

  /** Lines past the fifth never reach the record. */
  lemma ExtraLinesIgnored(lines: seq<string>)
    requires |lines| > 5
    ensures ExifVals(lines) == ExifVals(lines[..5])
  {
    var a, b := ExifVals(lines), ExifVals(lines[..5]);
    forall i | 0 <= i < 5 ensures a[Keys[i]] == b[Keys[i]] {
      assert lines[..5][i] == lines[i];
    }
    assert a.Keys == b.Keys;
    forall k | k in a ensures a[k] == b[k] {
      assert k == Keys[0] || k == Keys[1] || k == Keys[2] || k == Keys[3] || k == Keys[4];
    }
  }

  /**
   * The assignment is positional: once one key has no line, every later key
   * has none either.  In particular a record without a make has no values at all.
   */
  lemma ExifValsPositional(lines: seq<string>, i: nat, j: nat)
    requires i < j < 5
    requires ExifVals(lines)[Keys[i]].None?
    ensures ExifVals(lines)[Keys[j]].None?
  {
  }
}
