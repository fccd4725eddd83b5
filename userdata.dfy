/**
 * The per-user session dictionary `context.user_data`. A Python dict keeps
 * its keys in insertion order, so it is modelled as a list of entries with
 * distinct keys; `pop` removes an entry where it stands and `setdefault`
 * appends a new key at the end.
 */
module UserData {
  import opened Wrappers

  type Entries = seq<(string, string)>

  /** `d.get(k)`. */
  function Get(d: Entries, k: string): Option<string>
  {
    if d == [] then None
    else if d[0].0 == k then Some(d[0].1)
    else Get(d[1..], k)
  }

  /** `d.get(k)` is the value of the one entry for `k` that comes first, and `None` exactly when no entry has key `k`. */
  lemma {:induction false} GetFindsFirstEntry(d: Entries, k: string)
    ensures Get(d, k).None? <==> forall i :: 0 <= i < |d| ==> d[i].0 != k
    ensures Get(d, k).Some? ==>
              exists i :: 0 <= i < |d| && d[i] == (k, Get(d, k).value) && forall j :: 0 <= j < i ==> d[j].0 != k
  {
    if d != [] && d[0].0 != k {
      GetFindsFirstEntry(d[1..], k);
      assert forall i :: 1 <= i < |d| ==> d[i] == d[1..][i - 1];
      if Get(d, k).Some? {
        var i :| 0 <= i < |d[1..]| && d[1..][i] == (k, Get(d, k).value) && forall j :: 0 <= j < i ==> d[1..][j].0 != k;
        assert d[i + 1] == (k, Get(d, k).value);
        assert forall j :: 0 <= j < i + 1 ==> d[j].0 != k by {
          forall j | 0 <= j < i + 1 ensures d[j].0 != k {
            if j > 0 { assert d[j] == d[1..][j - 1]; }
          }
        }
      }
    } else if d != [] {
      assert d[0] == (k, Get(d, k).value);
    }
  }

  /** `k in d`. */
  predicate Has(d: Entries, k: string)
  {
    Get(d, k).Some?
  }

  /** No key occurs twice: what every Python dict satisfies. */
  predicate UniqueKeys(d: Entries)
  {
    d == [] || (!Has(d[1..], d[0].0) && UniqueKeys(d[1..]))
  }

  /** A dictionary: entries whose keys are distinct. */
  type Dict = d: Entries | UniqueKeys(d) witness []

  lemma {:induction false} GetAppend(d: Entries, k: string, v: string, j: string)
    ensures Get(d + [(k, v)], j) == if Has(d, j) then Get(d, j) else if j == k then Some(v) else None
  {
    if d != [] {
      assert (d + [(k, v)])[1..] == d[1..] + [(k, v)];
      GetAppend(d[1..], k, v, j);
    }
  }

  lemma {:induction false} UniqueKeysAppend(d: Entries, k: string, v: string)
    requires UniqueKeys(d) && !Has(d, k)
    ensures UniqueKeys(d + [(k, v)])
  {
    if d == [] {
      assert [] + [(k, v)] == [(k, v)];
    } else {
      assert (d + [(k, v)])[1..] == d[1..] + [(k, v)];
      UniqueKeysAppend(d[1..], k, v);
      GetAppend(d[1..], k, v, d[0].0);
    }
  }

  /** Removing entry `i` of the tail of `d` is removing entry `i + 1` of `d`. */
  lemma RemovedBehindFirst(d: Entries, i: nat)
    requires i + 1 < |d|
    ensures [d[0]] + (d[1..][..i] + d[1..][i + 1..]) == d[..i + 1] + d[i + 2..]
    ensures d[1..][i] == d[i + 1]
  {
    assert d[..i + 1] == [d[0]] + d[1..][..i];
    assert d[i + 2..] == d[1..][i + 1..];
  }

  /** `d.pop(k)`, which raises `KeyError` unless `k in d`; the value it returns is not used by the bot. */
  function Pop(d: Entries, k: string): (r: Entries)
    requires Has(d, k)
    ensures |r| == |d| - 1
    ensures forall j :: j != k ==> Get(r, j) == Get(d, j)
    ensures UniqueKeys(d) ==> UniqueKeys(r) && !Has(r, k)
  {
    if d[0].0 == k then d[1..] else [d[0]] + Pop(d[1..], k)
  }

  /** `pop` removes the entry for `k` where it stands: the entries before and after it keep their order. */
  lemma {:induction false} PopKeepsOrder(d: Entries, k: string)
    requires Has(d, k)
    ensures exists i :: 0 <= i < |d| && d[i].0 == k && Pop(d, k) == d[..i] + d[i + 1..]
  {
    if d[0].0 == k {
      assert Pop(d, k) == d[..0] + d[0 + 1..];
    } else {
      PopKeepsOrder(d[1..], k);
      var i :| 0 <= i < |d[1..]| && d[1..][i].0 == k && Pop(d[1..], k) == d[1..][..i] + d[1..][i + 1..];
      RemovedBehindFirst(d, i);
      assert Pop(d, k) == d[..i + 1] + d[i + 1 + 1..];
    }
  }

  /** `if k in d: d.pop(k)`, the guarded removal of `start`, `choosing_category`, `done_exercise` and `quit`. */
  function Discard(d: Entries, k: string): (r: Entries)
    ensures forall j :: j != k ==> Get(r, j) == Get(d, j)
    ensures UniqueKeys(d) ==> UniqueKeys(r) && !Has(r, k)
    ensures !Has(d, k) ==> r == d
  {
    if Has(d, k) then Pop(d, k) else d
  }

  /** The guarded removal keeps the order of the entries that remain. */
  lemma DiscardKeepsOrder(d: Entries, k: string)
    requires Has(d, k)
    ensures exists i :: 0 <= i < |d| && d[i].0 == k && Discard(d, k) == d[..i] + d[i + 1..]
  {
    PopKeepsOrder(d, k);
  }

  /** Removing one key leaves every other key's value as it was. */
  lemma DiscardKeepsOthers(d: Dict, k: string, j: string)
    requires j != k
    ensures Get(Discard(d, k), j) == Get(d, j)
    ensures !Has(Discard(d, k), k)
  {
  }

  /** `d.setdefault(k, v)`: stores `v` only when `k` is absent, as the newest key. */
  function SetDefault(d: Entries, k: string, v: string): (r: Entries)
    ensures Get(r, k) == if Has(d, k) then Get(d, k) else Some(v)
    ensures forall j :: j != k ==> Get(r, j) == Get(d, j)
    ensures UniqueKeys(d) ==> UniqueKeys(r)
    ensures Has(d, k) ==> r == d
    ensures !Has(d, k) ==> r == d + [(k, v)]
  {
    if Has(d, k) then d
    else
      assert forall j :: Get(d + [(k, v)], j) == if Has(d, j) then Get(d, j) else if j == k then Some(v) else None by {
        forall j ensures Get(d + [(k, v)], j) == if Has(d, j) then Get(d, j) else if j == k then Some(v) else None {
          GetAppend(d, k, v, j);
        }
      }
      assert UniqueKeys(d) ==> UniqueKeys(d + [(k, v)]) by {
        if UniqueKeys(d) { UniqueKeysAppend(d, k, v); }
      }
      d + [(k, v)]
  }
}
