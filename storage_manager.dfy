/**
 * The recordings object store: saved recordings under generated keys, the
 * retention filter that finds recordings older than a number of days, the
 * clean-up that deletes them, and the total size of what is stored.
 */
module StorageManager {
  import opened Common

  /** One saved recording, as the page stores it. */
  datatype Recording = Recording(
    stationId: string,
    stationName: string,
    /** `new Date(rec.date)` in milliseconds; `None` for a date that does not parse. */
    date: Option<int>,
    duration: int,
    /** `size` in bytes; `None` when it is missing. */
    size: Option<nat>)

  /** A stored recording and the key the store generated for it. */
  datatype Entry = Entry(key: nat, rec: Recording)

  const MsPerDay := 86_400_000

  /** The retention period `deleteOldRecordings` uses when none is given. */
  const DefaultRetentionDays := 30

  /** The cut-off `getOldRecordings(days)` computes: `days` calendar days before now, taken as whole days of milliseconds. */
  function Cutoff(nowMs: int, days: int): int {
    nowMs - days * MsPerDay
  }

  /** `new Date(rec.date) < cutoffDate`; an unparsable date compares false. */
  predicate IsOld(e: Entry, cutoff: int) {
    e.rec.date.Some? && e.rec.date.value < cutoff
  }

  /** The recordings dated strictly before the cut-off, in store order. */
  function OldRecordings(es: seq<Entry>, cutoff: int): (olds: seq<Entry>)
    ensures |olds| <= |es|
  {
    if es == [] then []
    else
      var last := es[|es| - 1];
      OldRecordings(es[..|es| - 1], cutoff) + (if IsOld(last, cutoff) then [last] else [])
  }

  /** The recordings the clean-up keeps: every one not dated before the cut-off. */
  function RecentRecordings(es: seq<Entry>, cutoff: int): (recent: seq<Entry>)
    ensures |recent| <= |es|
  {
    if es == [] then []
    else
      var last := es[|es| - 1];
      RecentRecordings(es[..|es| - 1], cutoff) + (if IsOld(last, cutoff) then [] else [last])
  }

  /**
   * The old and the recent recordings split the store: each entry is in
   * exactly one of them, according to its date, and their counts add up.
   */
  lemma {:induction false} OldAndRecentSplit(es: seq<Entry>, cutoff: int, e: Entry)
    ensures e in OldRecordings(es, cutoff) <==> e in es && IsOld(e, cutoff)
    ensures e in RecentRecordings(es, cutoff) <==> e in es && !IsOld(e, cutoff)
    ensures |OldRecordings(es, cutoff)| + |RecentRecordings(es, cutoff)| == |es|
    decreases |es|
  {
    if es != [] {
      var front := es[..|es| - 1];
      OldAndRecentSplit(front, cutoff, e);
      assert es == front + [es[|es| - 1]];
    }
  }

  /** `rec.size || 0`. */
  function SizeOrZero(r: Recording): nat {
    r.size.GetOr(0)
  }

  /** The total of `rec.size || 0` over the entries. */
  function StorageUsage(es: seq<Entry>): (total: nat)
    ensures es == [] ==> total == 0
  {
    if es == [] then 0 else StorageUsage(es[..|es| - 1]) + SizeOrZero(es[|es| - 1].rec)
  }

  /** One more entry adds exactly its size to the usage. */
  lemma StorageUsageAppend(es: seq<Entry>, e: Entry)
    ensures StorageUsage(es + [e]) == StorageUsage(es) + SizeOrZero(e.rec)
  {
    assert (es + [e])[..|es|] == es;
  }

  /** The usage of the store is that of its old recordings plus that of its recent ones. */
  lemma {:induction false} StorageUsageSplits(es: seq<Entry>, cutoff: int)
    ensures StorageUsage(es) == StorageUsage(OldRecordings(es, cutoff)) + StorageUsage(RecentRecordings(es, cutoff))
    decreases |es|
  {
    if es != [] {
      var front, last := es[..|es| - 1], es[|es| - 1];
      StorageUsageSplits(front, cutoff);
      var olds, recent := OldRecordings(front, cutoff), RecentRecordings(front, cutoff);
      if IsOld(last, cutoff) {
        StorageUsageAppend(olds, last);
        assert RecentRecordings(es, cutoff) == recent + [] == recent;
      } else {
        StorageUsageAppend(recent, last);
        assert OldRecordings(es, cutoff) == olds + [] == olds;
      }
    }
  }

  /** Every key in `es` is below `n`. */
  predicate KeysBelow(es: seq<Entry>, n: int) {
    forall e :: e in es ==> e.key < n
  }

  /** Keys strictly increase along the store, the order in which `getAll` lists them. */
  predicate Ascending(es: seq<Entry>) {
    es == [] || (Ascending(es[..|es| - 1]) && KeysBelow(es[..|es| - 1], es[|es| - 1].key))
  }

  /** The keys of the entries. */
  function KeysOf(es: seq<Entry>): set<nat> {
    if es == [] then {} else KeysOf(es[..|es| - 1]) + {es[|es| - 1].key}
  }

  lemma {:induction false} KeysOfMembers(es: seq<Entry>, k: nat)
    ensures k in KeysOf(es) <==> exists e :: e in es && e.key == k
    decreases |es|
  {
    if es != [] {
      var front := es[..|es| - 1];
      KeysOfMembers(front, k);
      assert es == front + [es[|es| - 1]];
    }
  }

  lemma KeysOfAppend(es: seq<Entry>, e: Entry)
    ensures KeysOf(es + [e]) == KeysOf(es) + {e.key}
  {
    assert (es + [e])[..|es|] == es;
  }

  /** The entries whose keys are not in `ks`, in store order. */
  function WithoutKeys(es: seq<Entry>, ks: set<nat>): (r: seq<Entry>)
    ensures |r| <= |es|
  {
    if es == [] then []
    else
      var last := es[|es| - 1];
      WithoutKeys(es[..|es| - 1], ks) + (if last.key in ks then [] else [last])
  }

  /** `store.delete(key)`: the store without the entry under `key`, unchanged when there is none. */
  function WithoutKey(es: seq<Entry>, key: nat): (r: seq<Entry>)
    ensures |r| <= |es|
  {
    WithoutKeys(es, {key})
  }

  lemma {:induction false} WithoutKeysMembers(es: seq<Entry>, ks: set<nat>, e: Entry)
    ensures e in WithoutKeys(es, ks) <==> e in es && e.key !in ks
    decreases |es|
  {
    if es != [] {
      var front := es[..|es| - 1];
      WithoutKeysMembers(front, ks, e);
      assert es == front + [es[|es| - 1]];
    }
  }

  /** Deleting keys one after the other is deleting them all at once. */
  lemma {:induction false} WithoutKeysTwice(es: seq<Entry>, ks: set<nat>, more: set<nat>)
    ensures WithoutKeys(WithoutKeys(es, ks), more) == WithoutKeys(es, ks + more)
    decreases |es|
  {
    if es != [] {
      var front, last := es[..|es| - 1], es[|es| - 1];
      WithoutKeysTwice(front, ks, more);
      var once := WithoutKeys(front, ks);
      if last.key in ks {
        assert WithoutKeys(es, ks) == once + [] == once;
      } else {
        assert (once + [last])[..|once|] == once;
      }
    }
  }

  /** Deleting a key that no entry carries changes nothing. */
  lemma {:induction false} WithoutAbsentKeys(es: seq<Entry>, ks: set<nat>)
    requires forall e :: e in es ==> e.key !in ks
    ensures WithoutKeys(es, ks) == es
    decreases |es|
  {
    if es != [] {
      var front := es[..|es| - 1];
      assert es == front + [es[|es| - 1]];
      WithoutAbsentKeys(front, ks);
    }
  }

  /** Deleting keys keeps the keys in ascending order. */
  lemma {:induction false} WithoutKeysAscending(es: seq<Entry>, ks: set<nat>)
    requires Ascending(es)
    ensures Ascending(WithoutKeys(es, ks))
    decreases |es|
  {
    if es != [] {
      var front, last := es[..|es| - 1], es[|es| - 1];
      WithoutKeysAscending(front, ks);
      var r := WithoutKeys(front, ks);
      if last.key !in ks {
        forall e | e in r ensures e.key < last.key {
          WithoutKeysMembers(front, ks, e);
        }
        assert (r + [last])[..|r|] == r;
      } else {
        assert WithoutKeys(es, ks) == r + [] == r;
      }
    }
  }

  /**
   * In a store with ascending keys, deleting the keys of the old recordings
   * leaves exactly the recent ones: each old recording takes only itself
   * with it.
   */
  lemma {:induction false} DeletingOldKeysLeavesRecent(es: seq<Entry>, cutoff: int)
    requires Ascending(es)
    ensures WithoutKeys(es, KeysOf(OldRecordings(es, cutoff))) == RecentRecordings(es, cutoff)
    decreases |es|
  {
    if es != [] {
      var front, last := es[..|es| - 1], es[|es| - 1];
      var olds := OldRecordings(front, cutoff);
      DeletingOldKeysLeavesRecent(front, cutoff);
      // No old recording before `last` carries its key.
      assert last.key !in KeysOf(olds) by {
        KeysOfMembers(olds, last.key);
        forall e | e in olds ensures e.key != last.key {
          OldAndRecentSplit(front, cutoff, e);
        }
      }
      if IsOld(last, cutoff) {
        KeysOfAppend(olds, last);
        assert OldRecordings(es, cutoff) == olds + [last];
        calc {
          WithoutKeys(es, KeysOf(olds) + {last.key});
          WithoutKeys(front, KeysOf(olds) + {last.key}) + [];
          { WithoutKeysTwice(front, KeysOf(olds), {last.key}); }
          WithoutKeys(WithoutKeys(front, KeysOf(olds)), {last.key}) + [];
          { WithoutKeysMembers(front, KeysOf(olds), last);
            forall e | e in WithoutKeys(front, KeysOf(olds)) ensures e.key !in {last.key} {
              WithoutKeysMembers(front, KeysOf(olds), e);
            }
            WithoutAbsentKeys(WithoutKeys(front, KeysOf(olds)), {last.key}); }
          WithoutKeys(front, KeysOf(olds)) + [];
          RecentRecordings(front, cutoff) + [];
        }
      } else {
        assert OldRecordings(es, cutoff) == olds + [] == olds;
      }
    }
  }

  /** Deleting the key of the next entry of `ds` after those before it. */
  lemma DeleteStep(es: seq<Entry>, ds: seq<Entry>, i: nat)
    requires i < |ds|
    ensures WithoutKey(WithoutKeys(es, KeysOf(ds[..i])), ds[i].key) == WithoutKeys(es, KeysOf(ds[..i + 1]))
  {
    WithoutKeysTwice(es, KeysOf(ds[..i]), {ds[i].key});
    assert ds[..i + 1] == ds[..i] + [ds[i]];
    KeysOfAppend(ds[..i], ds[i]);
  }

  /** The object store `recordings`, whose key generator starts at 1. */
  class Store {
    var entries: seq<Entry>
    /** The key the generator hands out next. */
    var nextKey: nat

    ghost predicate Valid()
      reads this
    {
      Ascending(entries) && KeysBelow(entries, nextKey) && nextKey >= 1
    }

    constructor()
      ensures Valid() && entries == [] && nextKey == 1
    {
      entries := [];
      nextKey := 1;
    }

    /** `saveRecording(recording)`: adds it under a new key, which it returns. */
    method SaveRecording(recording: Recording) returns (key: nat)
      requires Valid()
      modifies this
      ensures Valid()
      ensures key == old(nextKey) && nextKey == old(nextKey) + 1
      ensures entries == old(entries) + [Entry(key, recording)]
      ensures StorageUsage(entries) == StorageUsage(old(entries)) + SizeOrZero(recording)
    {
      key := nextKey;
      var e := Entry(key, recording);
      assert (entries + [e])[..|entries|] == entries;
      StorageUsageAppend(entries, e);
      entries := entries + [e];
      nextKey := nextKey + 1;
    }

    /** `getAllRecordings()`: every entry, in key order. */
    method GetAllRecordings() returns (all: seq<Entry>)
      ensures all == entries
    {
      all := entries;
    }

    /** `deleteRecording(key)`: removes the entry under `key` and no other. */
    method DeleteRecording(key: nat)
      requires Valid()
      modifies this
      ensures Valid()
      ensures entries == WithoutKey(old(entries), key)
      ensures nextKey == old(nextKey)
    {
      forall e | e in WithoutKey(entries, key) ensures e.key < nextKey {
        WithoutKeysMembers(entries, {key}, e);
      }
      WithoutKeysAscending(entries, {key});
      entries := WithoutKey(entries, key);
    }

    /** `getOldRecordings(days)` at `nowMs`. */
    method GetOldRecordings(days: int, nowMs: int) returns (olds: seq<Entry>)
      ensures olds == OldRecordings(entries, Cutoff(nowMs, days))
    {
      olds := OldRecordings(entries, Cutoff(nowMs, days));
    }

    /**
     * `deleteOldRecordings(days)` at `nowMs`, `days` being `None` when the
     * argument is omitted and the default of 30 applies: deletes, one key at
     * a time, every recording dated before the cut-off, and returns how many
     * it deleted; the recent recordings stay, in order.
     */
    method DeleteOldRecordings(days: Option<int>, nowMs: int) returns (count: nat)
      requires Valid()
      modifies this
      ensures Valid()
      ensures count == |OldRecordings(old(entries), Cutoff(nowMs, days.GetOr(DefaultRetentionDays)))|
      ensures entries == RecentRecordings(old(entries), Cutoff(nowMs, days.GetOr(DefaultRetentionDays)))
      ensures days.None? ==> entries == RecentRecordings(old(entries), nowMs - 30 * MsPerDay)
      ensures nextKey == old(nextKey)
    {
      var olds := GetOldRecordings(days.GetOr(DefaultRetentionDays), nowMs);
      var i := 0;
      assert KeysOf(olds[..0]) == {};
      WithoutAbsentKeys(entries, {});
      while i < |olds|
        invariant Valid()
        invariant i <= |olds| && nextKey == old(nextKey)
        invariant entries == WithoutKeys(old(entries), KeysOf(olds[..i]))
      {
        DeleteStep(old(entries), olds, i);
        DeleteRecording(olds[i].key);
        i := i + 1;
      }
      assert olds[..i] == olds;
      DeletingOldKeysLeavesRecent(old(entries), Cutoff(nowMs, days.GetOr(DefaultRetentionDays)));
      count := |olds|;
    }

    /** `getStorageUsage()`: the total size of the stored recordings. */
    method GetStorageUsage() returns (totalBytes: nat)
      ensures totalBytes == StorageUsage(entries)
    {
      totalBytes := StorageUsage(entries);
    }
  }
}
