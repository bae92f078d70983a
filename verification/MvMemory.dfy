/**
 The multi-version hash map: for every key an ordered map from transaction
 index to cell. The protocol sees it transposed, one map of cells per index.
 */
module MvMemory {
  import opened State
  import opened Protocol

  /** Skipping indices that do not hold the key does not change what a reader finds. */
  lemma {:induction false} LatestSkips(mv: Memory, k: StateKey, h: nat, j: nat)
    requires h <= j <= |mv| && forall i | h <= i < j :: k !in mv[i]
    ensures Latest(mv, k, j) == Latest(mv, k, h)
  {
    if h == j {
    } else {
      LatestSkips(mv, k, h, j - 1);
    }
  }

  type Trees = map<StateKey, map<nat, Cell>>

  /** One map of cells per index, for the first `n` indices. */
  ghost function Transpose(data: Trees, n: nat): Memory {
    seq(n, i requires 0 <= i => map k | k in data && i in data[k] :: data[k][i])
  }

  lemma TransposeStore(data: Trees, key: StateKey, idx: nat, c: Cell, n: nat)
    requires idx < n
    ensures var tree := if key in data then data[key] else map[];
            Transpose(data[key := tree[idx := c]], n) == Transpose(data, n)[idx := Transpose(data, n)[idx][key := c]]
  {
    var tree := if key in data then data[key] else map[];
    var after, expected := Transpose(data[key := tree[idx := c]], n),
        Transpose(data, n)[idx := Transpose(data, n)[idx][key := c]];
    forall i | 0 <= i < n ensures after[i] == expected[i] {
    }
  }

  lemma TransposeRemove(data: Trees, key: StateKey, idx: nat, n: nat)
    requires idx < n && key in data
    ensures Transpose(data[key := data[key] - {idx}], n) == Transpose(data, n)[idx := Transpose(data, n)[idx] - {key}]
  {
    var after, expected := Transpose(data[key := data[key] - {idx}], n),
        Transpose(data, n)[idx := Transpose(data, n)[idx] - {key}];
    forall i | 0 <= i < n ensures after[i] == expected[i] {
    }
  }

  /** The last entry of an ordered map below `j`. */
  method LastBelow(tree: map<nat, Cell>, j: nat) returns (last: Option<nat>)
    ensures last.Some? ==> last.value < j && last.value in tree && forall i | last.value < i < j :: i !in tree
    ensures last.None? ==> forall i: nat | i < j :: i !in tree
  {
    var i := j;
    while i > 0
      invariant i <= j && forall h: nat | i <= h < j :: h !in tree
    {
      i := i - 1;
      if i in tree { return Some(i); }
    }
    last := None;
  }

  class MVHashMap {
    var data: Trees

    /** The cells of the first `n` transactions, as the protocol sees them. */
    ghost function View(n: nat): Memory
      reads this
    {
      Transpose(data, n)
    }

    constructor ()
      ensures data == map[] && forall n: nat :: View(n) == seq(n, _ => map[])
    {
      data := map[];
    }

    /** Stores a cell; `ok` is the assertion that the incarnation has grown. */
    method Write(key: StateKey, ver: Version, x: Value) returns (ok: bool)
      modifies this
      ensures forall n: nat | ver.idx < n ::
                View(n) == old(View(n))[ver.idx := old(View(n))[ver.idx][key := Cell(false, ver.inc, x)]]
      ensures ok <==> (key in old(View(ver.idx + 1))[ver.idx] ==> old(View(ver.idx + 1))[ver.idx][key].inc < ver.inc)
      ensures data.Keys == old(data).Keys + {key}
    {
      var tree := if key in data then data[key] else map[];
      ok := ver.idx in tree ==> tree[ver.idx].inc < ver.inc;
      forall n: nat | ver.idx < n {
        TransposeStore(data, key, ver.idx, Cell(false, ver.inc, x), n);
      }
      data := data[key := tree[ver.idx := Cell(false, ver.inc, x)]];
    }

    /** Turns a cell into an estimate; `ok` is false, and nothing changes, where the original panics. */
    method MarkEstimate(key: StateKey, idx: nat) returns (ok: bool)
      modifies this
      ensures ok <==> key in old(View(idx + 1))[idx]
      ensures data.Keys == old(data).Keys
      ensures !ok ==> data == old(data)
      ensures ok ==> forall n: nat | idx < n ::
                key in old(View(n))[idx] &&
                View(n) == old(View(n))[idx := old(View(n))[idx][key := old(View(n))[idx][key].(estimate := true)]]
    {
      ok := key in data && idx in data[key];
      if ok {
        var tree: map<nat, Cell> := data[key];
        var c := tree[idx].(estimate := true);
        forall n: nat | idx < n {
          TransposeStore(data, key, idx, c, n);
        }
        data := data[key := tree[idx := c]];
      }
    }

    /** Removes a cell, if there is one; `ok` is false, as the original panics, exactly for a key never written. */
    method Delete(key: StateKey, idx: nat) returns (ok: bool)
      modifies this
      ensures ok <==> key in old(data)
      ensures key in old(View(idx + 1))[idx] ==> ok
      ensures data.Keys == old(data).Keys
      ensures !ok ==> data == old(data)
      ensures forall n: nat | idx < n :: View(n) == old(View(n))[idx := old(View(n))[idx] - {key}]
    {
      ok := key in data;
      if ok {
        forall n: nat | idx < n {
          TransposeRemove(data, key, idx, n);
        }
        data := data[key := data[key] - {idx}];
      } else {
        assert forall n: nat | idx < n :: View(n)[idx] - {key} == View(n)[idx];
      }
    }

    /** A lookup finds what the protocol's memory holds below `j`. */
    method Read(key: StateKey, j: nat) returns (found: Lookup)
      ensures forall n: nat | j <= n :: found == Latest(View(n), key, j)
    {
      found := Miss;
      ghost var h := 0;
      if key in data {
        var last := LastBelow(data[key], j);
        if last.Some? {
          var c := data[key][last.value];
          found := if c.estimate then Blocked(last.value) else Hit(Version(last.value, c.inc), c.data);
          h := last.value + 1;
        }
      }
      forall n: nat | j <= n ensures found == Latest(View(n), key, j) {
        LatestSkips(View(n), key, h, j);
      }
    }
  }
}
