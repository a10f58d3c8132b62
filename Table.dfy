/**
 * The membership table `group_members` of servidor.py: a Python dict from peer id to
 * priority. A dict iterates in insertion order, and the master tie-break depends on that
 * order, so the table is a sequence of (id, priority) entries with distinct ids.
 */
module MembershipTable {
  import opened Wrappers

  /** One row of the table: (peer id, declared priority). */
  type Entry = (int, int)

  /** The ids of the table, in insertion order (`list(d)`). */
  function Keys(m: seq<Entry>): seq<int>
  {
    seq(|m|, i requires 0 <= i < |m| => m[i].0)
  }

  ghost predicate Distinct(ks: seq<int>)
  {
    forall i, j :: 0 <= i < j < |ks| ==> ks[i] != ks[j]
  }

  /** A dict holds every key at most once. */
  ghost predicate UniqueKeys(m: seq<Entry>)
  {
    Distinct(Keys(m))
  }

  /** `d.get(k)`: the priority stored under `k`, if any. */
  function Get(m: seq<Entry>, k: int): (r: Option<int>)
    ensures r.Some? <==> k in Keys(m)
    ensures r.Some? ==> (k, r.value) in m
  {
    if m == [] then None
    else
      assert Keys(m) == [m[0].0] + Keys(m[1..]);
      if m[0].0 == k then Some(m[0].1) else Get(m[1..], k)
  }

  /**
   * `d[k] = v`: overwrite the entry of `k` where it stands, or append a new entry
   * at the end when `k` is not yet a key.
   */
  function Upsert(m: seq<Entry>, k: int, v: int): seq<Entry>
  {
    if m == [] then [(k, v)]
    else if m[0].0 == k then [(k, v)] + m[1..]
    else [m[0]] + Upsert(m[1..], k, v)
  }

  /** `d.pop(k, None)`: drop the entry of `k`, keeping the order of the others. */
  function Remove(m: seq<Entry>, k: int): seq<Entry>
  {
    if m == [] then []
    else if m[0].0 == k then Remove(m[1..], k)
    else [m[0]] + Remove(m[1..], k)
  }

  lemma KeysCons(m: seq<Entry>)
    requires m != []
    ensures Keys(m) == [m[0].0] + Keys(m[1..])
  {
  }

  lemma KeysAppend(m: seq<Entry>, n: seq<Entry>)
    ensures Keys(m + n) == Keys(m) + Keys(n)
  {
  }

  lemma UniqueCons(m: seq<Entry>)
    requires m != []
    ensures UniqueKeys(m) <==> UniqueKeys(m[1..]) && m[0].0 !in Keys(m[1..])
  {
    KeysCons(m);
    var ks := Keys(m);
    if UniqueKeys(m[1..]) && m[0].0 !in Keys(m[1..]) {
      forall i, j | 0 <= i < j < |ks| ensures ks[i] != ks[j] {
        if i > 0 {
          assert ks[i] == Keys(m[1..])[i - 1] && ks[j] == Keys(m[1..])[j - 1];
        } else {
          assert ks[j] == Keys(m[1..])[j - 1];
        }
      }
    }
    if UniqueKeys(m) {
      forall i, j | 0 <= i < j < |m| - 1 ensures Keys(m[1..])[i] != Keys(m[1..])[j] {
        assert ks[i + 1] != ks[j + 1];
      }
      forall i | 0 <= i < |m| - 1 ensures Keys(m[1..])[i] != m[0].0 {
        assert ks[0] != ks[i + 1];
      }
    }
  }

  /** Inserting a new key appends it: the entry goes to the end of the iteration order. */
  lemma {:induction false} UpsertAbsent(m: seq<Entry>, k: int, v: int)
    requires k !in Keys(m)
    ensures Upsert(m, k, v) == m + [(k, v)]
  {
    if m != [] {
      KeysCons(m);
      UpsertAbsent(m[1..], k, v);
      assert [m[0]] + (m[1..] + [(k, v)]) == m + [(k, v)];
    }
  }

  /** Overwriting an existing key keeps the entry at its position. */
  lemma {:induction false} UpsertPresent(m: seq<Entry>, i: nat, v: int)
    requires UniqueKeys(m)
    requires i < |m|
    ensures Upsert(m, m[i].0, v) == m[i := (m[i].0, v)]
  {
    var k := m[i].0;
    if i == 0 {
      assert [(k, v)] + m[1..] == m[0 := (k, v)];
    } else {
      assert Keys(m)[0] != Keys(m)[i];
      UniqueCons(m);
      UpsertPresent(m[1..], i - 1, v);
      assert [m[0]] + m[1..][i - 1 := (k, v)] == m[i := (k, v)];
    }
  }

  /** Dictionary reading of `d[k] = v`: `k` now maps to `v`, every other key is unchanged. */
  lemma {:induction false} UpsertGet(m: seq<Entry>, k: int, v: int, j: int)
    ensures Get(Upsert(m, k, v), j) == if j == k then Some(v) else Get(m, j)
  {
    if m != [] && m[0].0 != k {
      UpsertGet(m[1..], k, v, j);
    }
  }

  /** Overwriting or inserting keeps the order of the existing keys and adds `k` last if it is new. */
  lemma {:induction false} UpsertKeys(m: seq<Entry>, k: int, v: int)
    ensures Keys(Upsert(m, k, v)) == if k in Keys(m) then Keys(m) else Keys(m) + [k]
  {
    if m == [] {
    } else if m[0].0 == k {
      KeysCons(m);
      KeysCons(Upsert(m, k, v));
    } else {
      KeysCons(m);
      UpsertKeys(m[1..], k, v);
      KeysAppend([m[0]], Upsert(m[1..], k, v));
    }
  }

  /** The table stays a dict after `d[k] = v`. */
  lemma UpsertUnique(m: seq<Entry>, k: int, v: int)
    requires UniqueKeys(m)
    ensures UniqueKeys(Upsert(m, k, v))
  {
    UpsertKeys(m, k, v);
  }

  /** Writing the same value twice is the same as writing it once. */
  lemma {:induction false} UpsertIdempotent(m: seq<Entry>, k: int, v: int)
    ensures Upsert(Upsert(m, k, v), k, v) == Upsert(m, k, v)
  {
    if m != [] && m[0].0 != k {
      UpsertIdempotent(m[1..], k, v);
    }
  }

  /** Dictionary reading of `d.pop(k, None)`: `k` is gone, every other key is unchanged. */
  lemma {:induction false} RemoveGet(m: seq<Entry>, k: int, j: int)
    ensures Get(Remove(m, k), j) == if j == k then None else Get(m, j)
  {
    if m != [] {
      RemoveGet(m[1..], k, j);
    }
  }

  /** Popping a key that is not there is a no-op. */
  lemma {:induction false} RemoveAbsent(m: seq<Entry>, k: int)
    requires k !in Keys(m)
    ensures Remove(m, k) == m
  {
    if m != [] {
      KeysCons(m);
      RemoveAbsent(m[1..], k);
    }
  }

  /** Popping a present key deletes exactly its entry; the others keep their order. */
  lemma {:induction false} RemovePresent(m: seq<Entry>, i: nat)
    requires UniqueKeys(m)
    requires i < |m|
    ensures Remove(m, m[i].0) == m[..i] + m[i + 1..]
  {
    var k := m[i].0;
    UniqueCons(m);
    if i == 0 {
      RemoveAbsent(m[1..], k);
    } else {
      assert Keys(m)[0] != Keys(m)[i];
      RemovePresent(m[1..], i - 1);
      assert [m[0]] + (m[1..][..i - 1] + m[1..][i..]) == m[..i] + m[i + 1..];
    }
  }

  /** Removal keeps the remaining keys in order, so the table stays a dict. */
  lemma {:induction false} RemoveKeys(m: seq<Entry>, k: int)
    ensures forall x :: x in Keys(Remove(m, k)) <==> x in Keys(m) && x != k
    ensures UniqueKeys(m) ==> UniqueKeys(Remove(m, k))
  {
    if m != [] {
      KeysCons(m);
      UniqueCons(m);
      RemoveKeys(m[1..], k);
      if m[0].0 != k {
        UniqueCons(Remove(m, k));
        KeysCons(Remove(m, k));
      }
    }
  }

  /**
   * Index of the entry Python's `max(d, key=d.get)` returns: it walks the dict in order
   * and replaces its candidate only by a strictly greater priority, so among equal
   * maxima the earliest-inserted entry wins.
   */
  function MaxIndex(m: seq<Entry>): (r: nat)
    requires m != []
    ensures r < |m|
    ensures forall j :: 0 <= j < |m| ==> m[j].1 <= m[r].1
    ensures forall j :: 0 <= j < r ==> m[j].1 < m[r].1
  {
    if |m| == 1 then 0
    else
      var best := MaxIndex(m[..|m| - 1]);
      if m[|m| - 1].1 > m[best].1 then |m| - 1 else best
  }

  /** Entry `i` holds the highest priority, and no earlier entry holds it too. */
  ghost predicate IsFirstMax(m: seq<Entry>, i: int)
  {
    0 <= i < |m|
    && (forall j :: 0 <= j < |m| ==> m[j].1 <= m[i].1)
    && (forall j :: 0 <= j < i ==> m[j].1 < m[i].1)
  }

  /**
   * The master `update_master` derives: `max(d, key=d.get)`, or the node's own id when
   * the table is empty.
   */
  function Master(m: seq<Entry>, selfId: int): int
  {
    if m == [] then selfId else m[MaxIndex(m)].0
  }

  /**
   * The master is the highest-priority id, earliest-inserted among ties, and no other
   * entry has that property; with an empty table it is the node's own id.
   */
  lemma MasterIsFirstMax(m: seq<Entry>, selfId: int)
    ensures m == [] ==> Master(m, selfId) == selfId
    ensures m != [] ==> exists i :: IsFirstMax(m, i) && m[i].0 == Master(m, selfId)
    ensures forall i :: IsFirstMax(m, i) ==> m[i].0 == Master(m, selfId)
  {
    if m != [] {
      assert IsFirstMax(m, MaxIndex(m));
    }
  }

  /**
   * If one id holds a priority strictly above every other entry, it is the master, in
   * whatever order the entries were inserted.
   */
  lemma MasterOfUniqueMax(m: seq<Entry>, selfId: int, i: nat)
    requires i < |m|
    requires forall j :: 0 <= j < |m| && j != i ==> m[j].1 < m[i].1
    ensures Master(m, selfId) == m[i].0
  {
    assert IsFirstMax(m, i);
    MasterIsFirstMax(m, selfId);
  }
}
