/** Ascending lists of keys: what database iterators yield. */
module SortedKeys {
  import opened Prelude
  import opened Keys

  predicate Ascending(ks: seq<Bytes>) {
    forall i, j | 0 <= i < j < |ks| :: Less(ks[i], ks[j])
  }

  function Inserted(ks: seq<Bytes>, k: Bytes): (r: seq<Bytes>)
  {
    if ks == [] then [k]
    else if Less(k, ks[0]) then [k] + ks
    else if k == ks[0] then ks
    else [ks[0]] + Inserted(ks[1..], k)
  }

  lemma {:induction false} InsertedContents(ks: seq<Bytes>, k: Bytes)
    ensures forall x :: x in Inserted(ks, k) <==> x == k || x in ks
  {
    if ks != [] && !Less(k, ks[0]) && k != ks[0] {
      InsertedContents(ks[1..], k);
      assert forall x :: x in ks <==> x == ks[0] || x in ks[1..];
    }
  }

  lemma {:induction false} InsertedAscending(ks: seq<Bytes>, k: Bytes)
    requires Ascending(ks)
    ensures Ascending(Inserted(ks, k))
  {
    if ks == [] {
    } else if Less(k, ks[0]) {
      forall j | 0 <= j < |ks|
        ensures Less(k, ks[j])
      {
        if j > 0 { LessIsTransitive(k, ks[0], ks[j]); }
      }
    } else if k != ks[0] {
      LessIsTotal(k, ks[0]);
      InsertedAscending(ks[1..], k);
      InsertedContents(ks[1..], k);
      var rest := Inserted(ks[1..], k);
      forall j | 0 <= j < |rest|
        ensures Less(ks[0], rest[j])
      {
        assert rest[j] in rest;
      }
    }
  }

  /** A database iterator from `start` (inclusive) to `end` (exclusive). */
  method Iterate(keys: set<Bytes>, start: Bytes, end: Option<Bytes>) returns (ks: seq<Bytes>)
    ensures Ascending(ks)
    ensures forall k :: k in ks <==> k in keys && InRange(k, start, end)
  {
    ks := [];
    var left := keys;
    while left != {}
      invariant left <= keys && Ascending(ks)
      invariant forall k :: k in ks <==> k in keys - left && InRange(k, start, end)
    {
      var k :| k in left;
      if InRange(k, start, end) {
        InsertedAscending(ks, k);
        InsertedContents(ks, k);
        ks := Inserted(ks, k);
      }
      left := left - {k};
    }
  }

  lemma NoElements(ks: seq<Bytes>)
    ensures (forall k :: k !in ks) ==> ks == []
  {
    if ks != [] { assert ks[0] in ks; }
  }

  /** There is only one ascending list of a set of keys. */
  lemma {:induction false} AscendingIsUnique(a: seq<Bytes>, b: seq<Bytes>)
    requires Ascending(a) && Ascending(b) && forall k :: k in a <==> k in b
    ensures a == b
  {
    if a == [] {
      NoElements(b);
    } else {
      assert a[0] in b && b != [];
      assert b[0] in a;
      LessIsStrict(a[0], b[0]);
      assert a[0] == b[0];
      forall k
        ensures k in a[1..] <==> k in b[1..]
      {
        LessIsStrict(a[0], a[0]);
        assert k in a <==> k == a[0] || k in a[1..];
        assert k in b <==> k == b[0] || k in b[1..];
      }
      AscendingIsUnique(a[1..], b[1..]);
      assert a == [a[0]] + a[1..] && b == [b[0]] + b[1..];
    }
  }

  /** An ascending list of some keys of another is no longer than it, and the same if it is as long. */
  lemma {:induction false} AscendingFits(a: seq<Bytes>, b: seq<Bytes>)
    requires Ascending(a) && Ascending(b) && forall k | k in a :: k in b
    ensures |a| <= |b| && (|a| == |b| ==> a == b)
  {
    if a != [] {
      var init, last := a[..|a| - 1], a[|a| - 1];
      assert last in a;
      var j :| 0 <= j < |b| && b[j] == last;
      forall k | k in init
        ensures k in b[..j]
      {
        var i :| 0 <= i < |init| && init[i] == k;
        assert a[i] in a;
        KeysBelowStay(b, b[..j + 1], k, last);
        assert b[..j + 1] == b[..j] + [last];
        LessIsStrict(k, last);
        LessIsStrict(last, last);
      }
      AscendingFits(init, b[..j]);
      assert a == init + [last];
    }
  }

  datatype RangeEntry = RangeEntry(key: Bytes, value: Bytes)

  /** The entries of `m` under `prefix`, unprefixed and in ascending order. */
  ghost predicate IsPrefixRange(entries: seq<RangeEntry>, m: map<Bytes, Bytes>, prefix: Bytes) {
    && (forall i, j | 0 <= i < j < |entries| :: Less(entries[i].key, entries[j].key))
    && (forall e :: e in entries <==> PrefixKey(prefix, e.key) in m && m[PrefixKey(prefix, e.key)] == e.value)
  }

  /** Some first part of that list: nothing below a listed key is left out. */
  ghost predicate IsRangeStart(entries: seq<RangeEntry>, m: map<Bytes, Bytes>, prefix: Bytes) {
    && (forall i, j | 0 <= i < j < |entries| :: Less(entries[i].key, entries[j].key))
    && (forall e | e in entries :: PrefixKey(prefix, e.key) in m && m[PrefixKey(prefix, e.key)] == e.value)
    && (forall k, e | e in entries && PrefixKey(prefix, k) in m && Less(k, e.key) ::
          RangeEntry(k, m[PrefixKey(prefix, k)]) in entries)
  }

  function EntryKeys(entries: seq<RangeEntry>): seq<Bytes> {
    seq(|entries|, i requires 0 <= i < |entries| => entries[i].key)
  }

  lemma EntryKeysHold(entries: seq<RangeEntry>, m: map<Bytes, Bytes>, prefix: Bytes, k: Bytes)
    requires IsPrefixRange(entries, m, prefix)
    ensures k in EntryKeys(entries) <==> PrefixKey(prefix, k) in m
  {
    if PrefixKey(prefix, k) in m {
      assert RangeEntry(k, m[PrefixKey(prefix, k)]) in entries;
      var i :| 0 <= i < |entries| && entries[i].key == k;
      assert EntryKeys(entries)[i] == k;
    }
    if k in EntryKeys(entries) {
      var i :| 0 <= i < |entries| && EntryKeys(entries)[i] == k;
      assert entries[i] in entries;
    }
  }

  /** The entries under a prefix are determined by the map: there is one such list. */
  lemma PrefixRangeIsDetermined(a: seq<RangeEntry>, b: seq<RangeEntry>, m: map<Bytes, Bytes>, prefix: Bytes)
    requires IsPrefixRange(a, m, prefix) && IsPrefixRange(b, m, prefix)
    ensures a == b
  {
    forall k
      ensures k in EntryKeys(a) <==> k in EntryKeys(b)
    {
      EntryKeysHold(a, m, prefix, k);
      EntryKeysHold(b, m, prefix, k);
    }
    AscendingIsUnique(EntryKeys(a), EntryKeys(b));
    forall i | 0 <= i < |a|
      ensures a[i] == b[i]
    {
      assert a[i] in a && b[i] in b;
      assert EntryKeys(a)[i] == EntryKeys(b)[i];
    }
  }

  lemma PrefixedKey(key: Bytes, prefix: Bytes)
    requires HasPrefix(key, prefix)
    ensures PrefixKey(prefix, UnprefixKey(key, prefix)) == key
  {
    assert key == key[..|prefix| + 1] + key[|prefix| + 1..];
  }

  /**
   * The keys under a prefix: the raw range of the prefix, less the keys without the zero byte. The tree
   * may stop early after `limit` raw keys.
   */
  method PrefixRange(m: map<Bytes, Bytes>, prefix: Bytes, limit: Option<nat>) returns (entries: seq<RangeEntry>)
    requires prefix != []
    ensures limit.None? ==> IsPrefixRange(entries, m, prefix)
    ensures limit.Some? ==> |entries| <= limit.value && IsRangeStart(entries, m, prefix)
    ensures limit.Some? && |entries| + 1 < limit.value ==> IsPrefixRange(entries, m, prefix)
  {
    var end := PrefixRangeEnd(Some(prefix));
    var all := Iterate(m.Keys, prefix, end);
    var ks := if limit.Some? && limit.value < |all| then all[..limit.value] else all;
    entries := Unprefixed(m, prefix, ks);
    CollectedStart(m, prefix, all, ks, entries);
    if |entries| + 1 < |ks| { FewEntries(m, prefix, all, ks, entries); }
    if ks == all || |entries| + 1 < |ks| { CollectedAll(m, prefix, all, ks, entries); }
  }

  /** The entries are those of the keys under the prefix, in order. */
  ghost predicate Collected(m: map<Bytes, Bytes>, prefix: Bytes, ks: seq<Bytes>, entries: seq<RangeEntry>) {
    && (forall i, j | 0 <= i < j < |entries| :: Less(entries[i].key, entries[j].key))
    && (forall e | e in entries :: CollectedEntry(m, prefix, ks, e))
    && (forall k | k in ks && HasPrefix(k, prefix) :: k in m && RangeEntry(UnprefixKey(k, prefix), m[k]) in entries)
  }

  ghost predicate CollectedEntry(m: map<Bytes, Bytes>, prefix: Bytes, ks: seq<Bytes>, e: RangeEntry) {
    var k := PrefixKey(prefix, e.key);
    k in ks && k in m && m[k] == e.value
  }

  /** Go through the raw keys, leaving out those without the zero byte. */
  method Unprefixed(m: map<Bytes, Bytes>, prefix: Bytes, ks: seq<Bytes>) returns (entries: seq<RangeEntry>)
    requires prefix != [] && Ascending(ks) && forall k | k in ks :: k in m
    ensures |entries| <= |ks| && Collected(m, prefix, ks, entries)
    ensures (forall k | k in ks :: k == prefix || HasPrefix(k, prefix)) ==> |ks| <= |entries| + 1
  {
    entries := [];
    for i := 0 to |ks|
      invariant |entries| <= i && Collected(m, prefix, ks[..i], entries)
      invariant (forall k | k in ks[..i] :: k == prefix || HasPrefix(k, prefix)) ==>
                  i <= |entries| + if prefix in ks[..i] then 1 else 0
    {
      ghost var was := entries;
      assert ks[i] !in ks[..i] by { LessIsStrict(ks[i], ks[i]); }
      if HasPrefix(ks[i], prefix) {
        PrefixedKey(ks[i], prefix);
        var e := RangeEntry(UnprefixKey(ks[i], prefix), m[ks[i]]);
        forall a | 0 <= a < |entries|
          ensures Less(entries[a].key, e.key)
        {
          assert CollectedEntry(m, prefix, ks[..i], entries[a]);
          LessBehindPrefix(prefix + [0], entries[a].key, e.key);
        }
        entries := entries + [e];
      }
      assert ks[..i + 1] == ks[..i] + [ks[i]];
      forall e | e in entries
        ensures CollectedEntry(m, prefix, ks[..i + 1], e)
      {
        assert e in was ==> CollectedEntry(m, prefix, ks[..i], e);
      }
    }
    assert ks[..|ks|] == ks;
  }

  /** An entry whose key is among the collected ones is collected. */
  lemma CollectedKey(m: map<Bytes, Bytes>, prefix: Bytes, ks: seq<Bytes>, entries: seq<RangeEntry>, k: Bytes)
    requires prefix != [] && Collected(m, prefix, ks, entries) && PrefixKey(prefix, k) in ks
    ensures PrefixKey(prefix, k) in m && RangeEntry(k, m[PrefixKey(prefix, k)]) in entries
  {
    var x := PrefixKey(prefix, k);
    assert prefix + [0] <= x && UnprefixKey(x, prefix) == k;
  }

  /** Every key under the prefix is in the raw range. */
  lemma UnderInRange(prefix: Bytes, k: Bytes)
    ensures InRange(PrefixKey(prefix, k), prefix, PrefixEnd(prefix))
  {
    PrefixRangeIsExact(prefix, PrefixKey(prefix, k));
    assert prefix <= PrefixKey(prefix, k);
  }

  /** If fewer raw keys are left than were answered, what was not answered is not under the prefix. */
  lemma FewEntries(m: map<Bytes, Bytes>, prefix: Bytes, all: seq<Bytes>, ks: seq<Bytes>, entries: seq<RangeEntry>)
    requires Ascending(all) && ks <= all && |entries| + 1 < |ks|
    requires (forall k | k in ks :: k == prefix || HasPrefix(k, prefix)) ==> |ks| <= |entries| + 1
    requires prefix != [] && forall k :: k in all <==> k in m && InRange(k, prefix, PrefixEnd(prefix))
    ensures forall k | k in all && HasPrefix(k, prefix) :: k in ks
  {
    forall x | x in all && HasPrefix(x, prefix)
      ensures x in ks
    {
      var k :| k in ks && k != prefix && !HasPrefix(k, prefix);
      var i :| 0 <= i < |ks| && ks[i] == k;
      assert all[i] == k && k in all;
      PrefixRangeIsExact(prefix, k);
      var j :| 0 <= j < |all| && all[j] == x;
      if j > i {
        StraightBelow(prefix, k, x);
      }
      assert j <= i;
      assert ks[j] == x;
    }
  }

  /** Between a prefix and the keys under it there is nothing else that starts with it. */
  lemma StraightBelow(prefix: Bytes, k: Bytes, x: Bytes)
    requires prefix != [] && prefix <= k && HasPrefix(x, prefix) && Less(k, x)
    ensures k == prefix || HasPrefix(k, prefix)
  {
    var rest, under := k[|prefix|..], x[|prefix|..];
    assert k == prefix + rest && x == prefix + under;
    LessBehindPrefix(prefix, rest, under);
    if rest != [] {
      assert under[0] == 0;
      assert k[..|prefix| + 1] == prefix + [0];
    }
  }

  lemma CollectedAll(m: map<Bytes, Bytes>, prefix: Bytes, all: seq<Bytes>, ks: seq<Bytes>, entries: seq<RangeEntry>)
    requires prefix != [] && Collected(m, prefix, ks, entries)
    requires forall k :: k in all <==> k in m && InRange(k, prefix, PrefixEnd(prefix))
    requires forall k | k in all && HasPrefix(k, prefix) :: k in ks
    ensures IsPrefixRange(entries, m, prefix)
  {
    forall e
      ensures e in entries <==> PrefixKey(prefix, e.key) in m && m[PrefixKey(prefix, e.key)] == e.value
    {
      UnderInRange(prefix, e.key);
      assert prefix + [0] <= PrefixKey(prefix, e.key);
      if PrefixKey(prefix, e.key) in m { CollectedKey(m, prefix, ks, entries, e.key); }
      assert e in entries ==> CollectedEntry(m, prefix, ks, e);
    }
  }

  lemma CollectedStart(m: map<Bytes, Bytes>, prefix: Bytes, all: seq<Bytes>, ks: seq<Bytes>, entries: seq<RangeEntry>)
    requires prefix != [] && Collected(m, prefix, ks, entries) && Ascending(all) && ks <= all
    requires forall k :: k in all <==> k in m && InRange(k, prefix, PrefixEnd(prefix))
    ensures IsRangeStart(entries, m, prefix)
  {
    assert forall e | e in entries :: CollectedEntry(m, prefix, ks, e);
    forall k, e | e in entries && PrefixKey(prefix, k) in m && Less(k, e.key)
      ensures RangeEntry(k, m[PrefixKey(prefix, k)]) in entries
    {
      UnderInRange(prefix, k);
      LessBehindPrefix(prefix + [0], k, e.key);
      KeysBelowStay(all, ks, PrefixKey(prefix, k), PrefixKey(prefix, e.key));
      CollectedKey(m, prefix, ks, entries, k);
    }
  }

  /** What lies below a key in the first part of an ascending list is in that part. */
  lemma KeysBelowStay(all: seq<Bytes>, part: seq<Bytes>, x: Bytes, y: Bytes)
    requires Ascending(all) && part <= all && x in all && y in part && Less(x, y)
    ensures x in part
  {
    var i :| 0 <= i < |all| && all[i] == x;
    var j :| 0 <= j < |part| && part[j] == y;
    LessIsStrict(x, y);
    LessIsStrict(x, x);
    assert all[j] == y;
    assert i < j;
    assert part[i] == x;
  }
}
