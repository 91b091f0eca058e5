/** native/fideslib_stage0/include/plaintext_cache.hpp: mask fingerprints and the least-recently-used plaintext cache. */
module PlaintextCache {
  import opened Wrappers

  /** The bit pattern of a coefficient. */
  type Bits = bv64

  const GOLDEN: Bits := 0x9e3779b97f4a7c15
  const BASIS: Bits := 14695981039346656037

  // ----- fingerprints

  predicate IsZero(b: Bits) {
    b & 0x7fff_ffff_ffff_ffff == 0
  }

  predicate IsFinite(b: Bits) {
    b & 0x7ff0_0000_0000_0000 != 0x7ff0_0000_0000_0000
  }

  /** Zeros plus at most one finite nonzero value. */
  predicate Admitted(values: seq<Bits>) {
    && |values| > 0
    && (forall i :: 0 <= i < |values| && !IsZero(values[i]) ==> IsFinite(values[i]))
    && forall i, j :: 0 <= i < j < |values| && !IsZero(values[i]) && !IsZero(values[j]) ==> values[i] == values[j]
  }

  function Mix(hash: Bits, x: Bits): Bits {
    hash ^ (x + GOLDEN + (hash << 6) + (hash >> 2))
  }

  function Hash(values: seq<Bits>): Bits {
    if |values| == 0 then BASIS else Mix(Hash(values[..|values| - 1]), values[|values| - 1])
  }

  /** What a scan has learned about a prefix: its only nonzero value, or 0. */
  ghost predicate Scanned(values: seq<Bits>, nonzero: Bits) {
    && (nonzero == 0 ==> forall i :: 0 <= i < |values| ==> IsZero(values[i]))
    && (nonzero != 0 ==> !IsZero(nonzero) && IsFinite(nonzero) && nonzero in values)
    && forall i :: 0 <= i < |values| && !IsZero(values[i]) ==> values[i] == nonzero
  }

  /** Checks one value; false where the program returns nothing. */
  method Check(bits: Bits, nonzero0: Bits, ghost before: seq<Bits>) returns (ok: bool, nonzero: Bits)
    requires Scanned(before, nonzero0)
    ensures ok ==> Scanned(before + [bits], nonzero)
    ensures !ok ==> forall rest: seq<Bits> :: !Admitted(before + [bits] + rest)
  {
    hide IsFinite;
    nonzero := nonzero0;
    if IsZero(bits) {
      return true, nonzero;
    }
    NonzeroBits(bits);
    if !IsFinite(bits) {
      forall rest: seq<Bits>
        ensures !Admitted(before + [bits] + rest)
      {
        assert (before + [bits] + rest)[|before|] == bits;
      }
      return false, nonzero;
    }
    if nonzero != 0 && bits != nonzero {
      forall rest: seq<Bits>
        ensures !Admitted(before + [bits] + rest)
      {
        var all := before + [bits] + rest;
        var i :| 0 <= i < |before| && before[i] == nonzero;
        assert all[i] == nonzero && all[|before|] == bits;
      }
      return false, nonzero;
    }
    return true, bits;
  }

  lemma NonzeroBits(b: Bits)
    requires !IsZero(b)
    ensures b != 0
  {
  }

  lemma ScannedAdmits(values: seq<Bits>, nonzero: Bits)
    requires |values| > 0 && Scanned(values, nonzero)
    ensures Admitted(values)
  {
    hide IsZero, IsFinite;
  }

  /** The plain fingerprint as a function. */
  function MaskHash(values: seq<Bits>): Option<Bits> {
    if Admitted(values) then Some(Hash(values)) else None
  }

  method MaskFingerprint(values: seq<Bits>) returns (hash: Option<Bits>)
    ensures hash == MaskHash(values)
    ensures hash == if Admitted(values) then Some(Hash(values)) else None
  {
    hide Mix, IsZero, IsFinite, Admitted, Scanned, Hash, MaskHash;
    MaskMeans(values);
    NoHash();
    if |values| == 0 {
      NothingAdmitted();
      return None;
    }
    var state, nonzero := BASIS, 0 as Bits;
    NothingScanned();
    for i := 0 to |values|
      invariant state == Hash(values[..i]) && Scanned(values[..i], nonzero)
    {
      assert values[..i + 1] == values[..i] + [values[i]] && values[..i + 1] + values[i + 1..] == values;
      var ok, next := Check(values[i], nonzero, values[..i]);
      if !ok {
        return None;
      }
      nonzero := next;
      HashNext(values, i);
      state := Mix(state, values[i]);
    }
    assert values[..|values|] == values;
    ScannedAdmits(values, nonzero);
    return Some(state);
  }

  lemma MaskMeans(values: seq<Bits>)
    ensures MaskHash(values) == if Admitted(values) then Some(Hash(values)) else None
  {
    hide Admitted, Hash;
  }

  lemma NoHash()
    ensures Hash([]) == BASIS
  {
  }

  lemma HashNext(values: seq<Bits>, i: nat)
    requires i < |values|
    ensures Hash(values[..i + 1]) == Mix(Hash(values[..i]), values[i])
  {
    hide Mix;
    assert values[..i + 1][..i] == values[..i];
  }

  lemma NothingAdmitted()
    ensures !Admitted([])
  {
  }

  lemma NothingScanned()
    ensures Scanned([], 0)
  {
  }

  /** A count as a machine word. */
  function Word(n: nat): Bits {
    (n % 0x1_0000_0000_0000_0000) as Bits
  }

  /** The hash over run starts and their positions. */
  function RunState(values: seq<Bits>): Bits {
    if |values| == 0 then BASIS else
      var n := |values| - 1;
      var before := RunState(values[..n]);
      if n > 0 && values[n] == values[n - 1] then before else Mix(Mix(before, values[n]), Word(n))
  }

  function RunEnd(state: Bits, size: nat): Bits {
    state ^ (Word(size) * GOLDEN)
  }

  function RunHash(values: seq<Bits>): Bits {
    RunEnd(RunState(values), |values|)
  }

  lemma RunStep(values: seq<Bits>, i: nat)
    requires i < |values|
    ensures RunState(values[..i + 1])
         == if i > 0 && values[i] == values[i - 1] then RunState(values[..i]) else Mix(Mix(RunState(values[..i]), values[i]), Word(i))
  {
    hide Mix, Word;
    assert values[..i + 1][..i] == values[..i];
  }

  lemma NoRun()
    ensures RunState([]) == BASIS
  {
  }

  /** The fingerprint over runs as a function. */
  function RunMaskHash(values: seq<Bits>): Option<Bits> {
    if Admitted(values) then Some(RunHash(values)) else None
  }

  method RunMaskFingerprint(values: seq<Bits>) returns (hash: Option<Bits>)
    ensures hash == RunMaskHash(values)
    ensures hash == if Admitted(values) then Some(RunHash(values)) else None
  {
    hide *;
    RunMaskMeans(values);
    if |values| == 0 {
      NothingAdmitted();
      return None;
    }
    var state, nonzero, previous := BASIS, 0 as Bits, values[0] ^ 1;
    FlippedDiffers(values[0]);
    NothingScanned();
    NoRun();
    for i := 0 to |values|
      invariant i == 0 ==> previous != values[0]
      invariant i > 0 ==> previous == values[i - 1]
      invariant state == RunState(values[..i]) && Scanned(values[..i], nonzero)
    {
      var bits := values[i];
      RunStep(values, i);
      assert values[..i + 1] == values[..i] + [bits];
      if bits == previous {
        assert values[..i][i - 1] == bits;
        RepeatScanned(values[..i], nonzero);
      } else {
        previous := bits;
        var ok, next := Check(bits, nonzero, values[..i]);
        if !ok {
          assert values[..i] + [bits] + values[i + 1..] == values;
          return None;
        }
        nonzero := next;
        state := Mix(Mix(state, bits), Word(i));
      }
    }
    assert values[..|values|] == values;
    ScannedAdmits(values, nonzero);
    RunHashIs(values, state);
    return Some(RunEnd(state, |values|));
  }

  lemma RunMaskMeans(values: seq<Bits>)
    ensures RunMaskHash(values) == if Admitted(values) then Some(RunHash(values)) else None
  {
    hide Admitted, RunHash;
  }

  lemma RunHashIs(values: seq<Bits>, state: Bits)
    requires state == RunState(values)
    ensures RunHash(values) == RunEnd(state, |values|)
  {
    hide RunEnd, RunState;
  }

  lemma FlippedDiffers(b: Bits)
    ensures b ^ 1 != b
  {
  }

  lemma RepeatScanned(values: seq<Bits>, nonzero: Bits)
    requires |values| > 0 && Scanned(values, nonzero)
    ensures Scanned(values + [values[|values| - 1]], nonzero)
  {
    hide IsZero, IsFinite;
  }

  // ----- recency

  function Without<K(==)>(keys: seq<K>, k: K): seq<K> {
    if |keys| == 0 then [] else if keys[0] == k then Without(keys[1..], k) else [keys[0]] + Without(keys[1..], k)
  }

  function Take<K(==)>(keys: seq<K>, n: nat): seq<K> {
    if |keys| <= n then keys else keys[..n]
  }

  predicate Unique<K(==)>(keys: seq<K>) {
    forall i, j :: 0 <= i < j < |keys| ==> keys[i] != keys[j]
  }

  /** All keys ever used, most recently used first. */
  function Recent<K(==)>(history: seq<K>): seq<K> {
    if |history| == 0 then [] else
      var last := history[|history| - 1];
      [last] + Without(Recent(history[..|history| - 1]), last)
  }

  lemma {:induction false} WithoutAbsent<K>(keys: seq<K>, k: K)
    requires k !in keys
    ensures Without(keys, k) == keys
  {
    if |keys| > 0 {
      WithoutAbsent(keys[1..], k);
      assert keys == [keys[0]] + keys[1..];
    }
  }

  lemma {:induction false} WithoutAt<K>(keys: seq<K>, k: K, p: nat)
    requires Unique(keys) && p < |keys| && keys[p] == k
    ensures Without(keys, k) == keys[..p] + keys[p + 1..]
    decreases |keys|
  {
    if p == 0 {
      WithoutAbsent(keys[1..], k);
    } else {
      assert keys[0] != keys[p];
      WithoutAt(keys[1..], k, p - 1);
      assert [keys[0]] + (keys[1..][..p - 1] + keys[1..][p..]) == keys[..p] + keys[p + 1..];
    }
  }

  /** The element at p moved to the front. */
  function Spliced<T>(s: seq<T>, p: nat): (r: seq<T>)
    requires p < |s|
    ensures |r| == |s|
  {
    [s[p]] + s[..p] + s[p + 1..]
  }

  /** Where the element at position i of the spliced list was. */
  function Origin(p: nat, i: nat): nat {
    if i == 0 then p else if i <= p then i - 1 else i
  }

  lemma SplicedFrom<T>(s: seq<T>, p: nat)
    requires p < |s|
    ensures forall i: nat :: i < |s| ==> Origin(p, i) < |s| && Spliced(s, p)[i] == s[Origin(p, i)]
    ensures forall x :: x in Spliced(s, p) <==> x in s
  {
    var moved := Spliced(s, p);
    forall i: nat | i < |s|
      ensures s[i] in moved
    {
      var at := if i == p then 0 else if i < p then i + 1 else i;
      assert moved[at] == s[i];
    }
  }

  lemma SplicedUnique<K>(keys: seq<K>, p: nat)
    requires p < |keys| && Unique(keys)
    ensures Unique(Spliced(keys, p)) && Spliced(keys, p) == [keys[p]] + Without(keys, keys[p])
  {
    hide Without, Origin;
    SplicedFrom(keys, p);
    WithoutAt(keys, keys[p], p);
    assert Spliced(keys, p) == [keys[p]] + (keys[..p] + keys[p + 1..]);
    forall i: nat, j: nat | i < j < |keys|
      ensures Spliced(keys, p)[i] != Spliced(keys, p)[j]
    {
      OriginDiffers(p, i, j);
    }
  }

  lemma OriginDiffers(p: nat, i: nat, j: nat)
    requires i != j
    ensures Origin(p, i) != Origin(p, j)
  {
  }

  lemma {:induction false} RecentUnique<K>(history: seq<K>)
    ensures Unique(Recent(history)) && forall k :: k in Recent(history) <==> k in history
  {
    hide Without, Spliced;
    if |history| > 0 {
      var front, last := history[..|history| - 1], history[|history| - 1];
      RecentUnique(front);
      assert history == front + [last];
      var before := Recent(front);
      if last in before {
        var p :| 0 <= p < |before| && before[p] == last;
        SplicedUnique(before, p);
        SplicedFrom(before, p);
      } else {
        WithoutAbsent(before, last);
      }
    }
  }

  lemma WithoutPrefix<K>(keys: seq<K>, k: K, n: nat)
    requires Unique(keys) && 0 < n <= |keys|
    ensures |[k] + Without(keys[..n], k)| >= n && |[k] + Without(keys, k)| >= n
    ensures ([k] + Without(keys[..n], k))[..n] == ([k] + Without(keys, k))[..n]
  {
    hide Without;
    var kept := keys[..n];
    if k in keys {
      var p :| 0 <= p < |keys| && keys[p] == k;
      WithoutAt(keys, k, p);
      if p < n {
        WithoutAt(kept, k, p);
        assert keys[..n][..p] == keys[..p];
        assert ([k] + (keys[..p] + keys[p + 1..]))[..n] == [k] + (keys[..p] + keys[p + 1..n]);
        assert kept[p + 1..] == keys[p + 1..n];
      } else {
        assert k !in kept;
        WithoutAbsent(kept, k);
      }
    } else {
      WithoutAbsent(keys, k);
      WithoutAbsent(kept, k);
    }
  }

  /** Keeping only `capacity` keys loses nothing that the next step needs. */
  lemma TouchTake<K>(keys: seq<K>, k: K, capacity: nat)
    requires Unique(keys) && capacity > 0
    ensures Take([k] + Without(Take(keys, capacity), k), capacity) == Take([k] + Without(keys, k), capacity)
  {
    hide Without;
    if |keys| > capacity {
      WithoutPrefix(keys, k, capacity);
    }
  }

  /** One use of a key. */
  lemma TouchFacts<K>(keys: seq<K>, k: K, capacity: nat)
    requires Unique(keys) && |keys| <= capacity && capacity > 0
    ensures var touched := Take([k] + Without(keys, k), capacity);
            Unique(touched) && |touched| == if k in keys || |keys| == capacity then |keys| else |keys| + 1
  {
    hide Without;
    if k in keys {
      var p :| 0 <= p < |keys| && keys[p] == k;
      SplicedUnique(keys, p);
    } else {
      WithoutAbsent(keys, k);
    }
  }

  lemma NothingUnique<K>()
    ensures Unique<K>([])
  {
  }

  // ----- what a request sequence does, without any cache structure

  datatype Key = Key(values: seq<Bits>, level: nat)

  datatype Counters = Counters(hits: nat, misses: nat, bypasses: nat, evictions: nat)

  datatype Replay = Replay(keys: seq<Key>, counters: Counters)

  function Replayed(requests: seq<Key>, capacity: nat, admits: seq<Bits> -> bool): Replay {
    if |requests| == 0 then Replay([], Counters(0, 0, 0, 0)) else
      Served(Replayed(requests[..|requests| - 1], capacity, admits), requests[|requests| - 1], capacity, admits)
  }

  function Served(before: Replay, k: Key, capacity: nat, admits: seq<Bits> -> bool): Replay {
    var c := before.counters;
    if capacity == 0 || !admits(k.values) then Replay(before.keys, c.(bypasses := c.bypasses + 1)) else
      var keys := Take([k] + Without(before.keys, k), capacity);
      if k in before.keys then Replay(keys, c.(hits := c.hits + 1)) else
        Replay(keys, c.(misses := c.misses + 1, evictions := c.evictions + if |before.keys| == capacity then 1 else 0))
  }

  /** The admitted requests, in order. */
  function History(requests: seq<Key>, admits: seq<Bits> -> bool): seq<Key> {
    if |requests| == 0 then [] else
      var last := requests[|requests| - 1];
      History(requests[..|requests| - 1], admits) + if admits(last.values) then [last] else []
  }

  /** Exactly the `capacity` most recently used distinct admitted keys are held. */
  lemma {:induction false} HoldsMostRecent(requests: seq<Key>, capacity: nat, admits: seq<Bits> -> bool)
    requires capacity > 0
    ensures Replayed(requests, capacity, admits).keys == Take(Recent(History(requests, admits)), capacity)
  {
    if |requests| > 0 {
      var front, last := requests[..|requests| - 1], requests[|requests| - 1];
      HoldsMostRecent(front, capacity, admits);
      var history := History(front, admits);
      if admits(last.values) {
        RecentUnique(history);
        TouchTake(Recent(history), last, capacity);
        assert (history + [last])[..|history|] == history;
      } else {
        assert history + [] == history;
      }
    }
  }

  /** Every request is counted once, and what was missed and not evicted is held. */
  lemma {:induction false} CountersAdd(requests: seq<Key>, capacity: nat, admits: seq<Bits> -> bool)
    ensures var r := Replayed(requests, capacity, admits); var c := r.counters;
            && c.hits + c.misses + c.bypasses == |requests|
            && c.misses == c.evictions + |r.keys| && |r.keys| <= capacity && Unique(r.keys)
  {
    hide Without, Take, Unique;
    NothingUnique<Key>();
    if |requests| > 0 {
      var front, k := requests[..|requests| - 1], requests[|requests| - 1];
      CountersAdd(front, capacity, admits);
      if capacity > 0 {
        TouchFacts(Replayed(front, capacity, admits).keys, k, capacity);
      }
    }
  }

  /** Admission rules that agree replay alike. */
  lemma {:induction false} SameAdmission(requests: seq<Key>, capacity: nat, a: seq<Bits> -> bool, b: seq<Bits> -> bool)
    requires forall values :: a(values) == b(values)
    ensures Replayed(requests, capacity, a) == Replayed(requests, capacity, b)
  {
    if |requests| > 0 {
      SameAdmission(requests[..|requests| - 1], capacity, a, b);
    }
  }

  // ----- the cache

  /** id plays the part of the list iterator. */
  datatype Entry<P> = Entry(id: nat, hash: Bits, key: Key, plaintext: P)

  function Keys<P>(entries: seq<Entry<P>>): (r: seq<Key>)
    ensures |r| == |entries|
  {
    seq(|entries|, i requires 0 <= i < |entries| => entries[i].key)
  }

  function Bucket<P>(e: Entry<P>, keyOf: (Bits, nat) -> Bits): (Bits, nat) {
    (keyOf(e.hash, e.key.level), e.id)
  }

  ghost function IndexOf<P(!new)>(entries: seq<Entry<P>>, keyOf: (Bits, nat) -> Bits): set<(Bits, nat)> {
    set e | e in entries :: Bucket(e, keyOf)
  }

  /** Entries carry what encode gives for their key, under distinct ids. */
  ghost predicate EntriesTrue<P>(entries: seq<Entry<P>>, fingerprint: seq<Bits> -> Option<Bits>, encode: Key -> P, nextId: nat) {
    && (forall i :: 0 <= i < |entries| ==>
          entries[i].id < nextId && fingerprint(entries[i].key.values) == Some(entries[i].hash) && entries[i].plaintext == encode(entries[i].key))
    && forall i, j :: 0 <= i < j < |entries| ==> entries[i].id != entries[j].id
  }

  predicate Matches<P>(e: Entry<P>, hash: Bits, key: Key) {
    e.hash == hash && e.key.level == key.level && e.key.values == key.values
  }

  class MaskPlaintextCache<P(!new)> {
    const capacity: nat
    const indexed: bool
    const fingerprint: seq<Bits> -> Option<Bits>
    const keyOf: (Bits, nat) -> Bits
    ghost const encode: Key -> P
    var entries: seq<Entry<P>>
    var index: set<(Bits, nat)>
    var nextId: nat
    var hits: nat
    var misses: nat
    var bypasses: nat
    var evictions: nat
    ghost var requests: seq<Key>

    ghost function Admits(): seq<Bits> -> bool {
      (values: seq<Bits>) => fingerprint(values).Some?
    }

    ghost predicate Valid()
      reads this
    {
      && EntriesTrue(entries, fingerprint, encode, nextId)
      && index == (if indexed then IndexOf(entries, keyOf) else {})
      && Replay(Keys(entries), Counters(hits, misses, bypasses, evictions)) == Replayed(requests, capacity, Admits())
    }

    constructor (capacity: nat, indexed: bool, fingerprint: seq<Bits> -> Option<Bits>, keyOf: (Bits, nat) -> Bits, ghost encode: Key -> P)
      ensures Valid() && requests == [] && this.capacity == capacity && this.indexed == indexed
      ensures this.fingerprint == fingerprint && this.encode == encode
    {
      this.capacity, this.indexed, this.fingerprint, this.keyOf, this.encode := capacity, indexed, fingerprint, keyOf, encode;
      entries, index, nextId := [], {}, 0;
      hits, misses, bypasses, evictions, requests := 0, 0, 0, 0, [];
    }

    /** The position of the entry for a key, by scanning the list. */
    method FindLinear(hash: Bits, key: Key) returns (found: Option<nat>)
      ensures found.Some? ==> found.value < |entries| && Matches(entries[found.value], hash, key)
      ensures found.None? ==> forall i :: 0 <= i < |entries| ==> !Matches(entries[i], hash, key)
    {
      for i := 0 to |entries|
        invariant forall j :: 0 <= j < i ==> !Matches(entries[j], hash, key)
      {
        if Matches(entries[i], hash, key) {
          return Some(i);
        }
      }
      return None;
    }

    /** The same through the index: only entries filed under the key's bucket are compared. */
    method FindIndexed(hash: Bits, key: Key) returns (found: Option<nat>)
      requires indexed && index == IndexOf(entries, keyOf)
      ensures found.Some? ==> found.value < |entries| && Matches(entries[found.value], hash, key)
      ensures found.None? ==> forall i :: 0 <= i < |entries| ==> !Matches(entries[i], hash, key)
    {
      var bucket := keyOf(hash, key.level);
      for i := 0 to |entries|
        invariant forall j :: 0 <= j < i ==> !Matches(entries[j], hash, key)
      {
        if (bucket, entries[i].id) in index {
          if Matches(entries[i], hash, key) {
            return Some(i);
          }
        } else {
          assert entries[i] in entries && Bucket(entries[i], keyOf) in IndexOf(entries, keyOf);
        }
      }
      return None;
    }

    /** Returns what encode would return; encoded is that value, computed only when it is needed. */
    method Get(key: Key, encoded: P) returns (plaintext: P)
      requires Valid() && encoded == encode(key)
      modifies this
      ensures Valid() && plaintext == encode(key) && requests == old(requests) + [key]
    {
      hide EntriesTrue, Replayed, IndexOf, Served, Keys;
      LastRequest(requests, key, capacity, Admits());
      var hash := fingerprint(key.values);
      if capacity == 0 || hash.None? {
        BypassServed(Keys(entries), Counters(hits, misses, bypasses, evictions), key, capacity, Admits());
        requests, bypasses := requests + [key], bypasses + 1;
        return encoded;
      }
      var found: Option<nat>;
      if indexed {
        found := FindIndexed(hash.value, key);
      } else {
        found := FindLinear(hash.value, key);
      }
      Lookup(entries, fingerprint, encode, nextId, hash.value, key, found);
      CountersAdd(requests, capacity, Admits());
      if found.Some? {
        HitServed(entries, fingerprint, encode, nextId, keyOf, found.value, Counters(hits, misses, bypasses, evictions), capacity, Admits());
        requests, hits := requests + [key], hits + 1;
        entries := Spliced(entries, found.value);
        return entries[0].plaintext;
      }
      Insert(Entry(nextId, hash.value, key, encoded));
      return encoded;
    }

    /** Evicts the last entry if the cache is full, then puts the new one in front. */
    method Insert(e: Entry<P>)
      requires Valid() && e.id == nextId && fingerprint(e.key.values) == Some(e.hash) && e.plaintext == encode(e.key)
      requires e.key !in Keys(entries) && |entries| <= capacity && capacity > 0
      modifies this
      ensures Valid() && requests == old(requests) + [e.key]
    {
      hide EntriesTrue, Replayed, IndexOf, Served, Keys, Inserted;
      LastRequest(requests, e.key, capacity, Admits());
      MissServed(entries, e, Counters(hits, misses, bypasses, evictions), capacity, Admits());
      InsertedTrue(entries, fingerprint, encode, nextId, e, capacity);
      InsertedIndex(entries, fingerprint, encode, nextId, keyOf, e, capacity);
      if |entries| == capacity {
        var last := entries[|entries| - 1];
        if indexed {
          index := index - {Bucket(last, keyOf)};
        }
        evictions := evictions + 1;
      }
      if indexed {
        index := index + {Bucket(e, keyOf)};
      }
      requests, misses, nextId := requests + [e.key], misses + 1, nextId + 1;
      entries := Inserted(entries, e, capacity);
    }
  }

  /** A key is found exactly when it is held; the hash only filters. */
  lemma Lookup<P>(entries: seq<Entry<P>>, fingerprint: seq<Bits> -> Option<Bits>, encode: Key -> P, nextId: nat, hash: Bits, key: Key, found: Option<nat>)
    requires EntriesTrue(entries, fingerprint, encode, nextId) && fingerprint(key.values) == Some(hash)
    requires found.Some? ==> found.value < |entries| && Matches(entries[found.value], hash, key)
    requires found.None? ==> forall i :: 0 <= i < |entries| ==> !Matches(entries[i], hash, key)
    ensures found.Some? ==> entries[found.value].key == key && entries[found.value].plaintext == encode(key)
    ensures found.Some? <==> key in Keys(entries)
  {
    if found.Some? {
      assert Keys(entries)[found.value] == key;
    }
  }

  lemma BypassServed(keys: seq<Key>, c: Counters, key: Key, capacity: nat, admits: seq<Bits> -> bool)
    requires capacity == 0 || !admits(key.values)
    ensures Served(Replay(keys, c), key, capacity, admits) == Replay(keys, c.(bypasses := c.bypasses + 1))
  {
  }

  lemma HitServed<P(!new)>(entries: seq<Entry<P>>, fingerprint: seq<Bits> -> Option<Bits>, encode: Key -> P, nextId: nat,
                           keyOf: (Bits, nat) -> Bits, p: nat, c: Counters, capacity: nat, admits: seq<Bits> -> bool)
    requires EntriesTrue(entries, fingerprint, encode, nextId) && p < |entries| && Unique(Keys(entries)) && |entries| <= capacity
    requires admits(entries[p].key.values)
    ensures EntriesTrue(Spliced(entries, p), fingerprint, encode, nextId)
    ensures IndexOf(Spliced(entries, p), keyOf) == IndexOf(entries, keyOf)
    ensures Served(Replay(Keys(entries), c), entries[p].key, capacity, admits) == Replay(Keys(Spliced(entries, p)), c.(hits := c.hits + 1))
  {
    hide Without;
    SplicedTrue(entries, fingerprint, encode, nextId, p);
    SplicedFrom(entries, p);
    var keys, key := Keys(entries), entries[p].key;
    assert keys[p] == key;
    SplicedUnique(keys, p);
    assert Keys(Spliced(entries, p)) == Spliced(keys, p);
  }

  lemma SplicedTrue<P>(entries: seq<Entry<P>>, fingerprint: seq<Bits> -> Option<Bits>, encode: Key -> P, nextId: nat, p: nat)
    requires EntriesTrue(entries, fingerprint, encode, nextId) && p < |entries|
    ensures EntriesTrue(Spliced(entries, p), fingerprint, encode, nextId)
  {
    hide Spliced, Origin;
    SplicedFrom(entries, p);
    var moved := Spliced(entries, p);
    forall i: nat, j: nat | i < j < |moved|
      ensures moved[i].id != moved[j].id
    {
      OriginDiffers(p, i, j);
      assert moved[i] == entries[Origin(p, i)] && moved[j] == entries[Origin(p, j)];
    }
  }

  /** The list after a miss. */
  function Inserted<P>(entries: seq<Entry<P>>, e: Entry<P>, capacity: nat): seq<Entry<P>> {
    [e] + if |entries| == capacity > 0 then entries[..|entries| - 1] else entries
  }

  lemma MissServed<P>(entries: seq<Entry<P>>, e: Entry<P>, c: Counters, capacity: nat, admits: seq<Bits> -> bool)
    requires e.key !in Keys(entries) && |entries| <= capacity && capacity > 0 && admits(e.key.values)
    ensures Served(Replay(Keys(entries), c), e.key, capacity, admits)
         == Replay(Keys(Inserted(entries, e, capacity)),
                   c.(misses := c.misses + 1, evictions := c.evictions + if |entries| == capacity then 1 else 0))
  {
    hide Without, Keys, Inserted, Take;
    WithoutAbsent(Keys(entries), e.key);
    KeysInserted(entries, e, capacity);
  }

  lemma KeysInserted<P>(entries: seq<Entry<P>>, e: Entry<P>, capacity: nat)
    requires |entries| <= capacity && capacity > 0
    ensures Keys(Inserted(entries, e, capacity)) == Take([e.key] + Keys(entries), capacity)
  {
    var after, keys := Inserted(entries, e, capacity), [e.key] + Keys(entries);
    forall i | 0 <= i < |after|
      ensures Keys(after)[i] == keys[i]
    {
    }
  }

  lemma InsertedTrue<P>(entries: seq<Entry<P>>, fingerprint: seq<Bits> -> Option<Bits>, encode: Key -> P, nextId: nat, e: Entry<P>, capacity: nat)
    requires EntriesTrue(entries, fingerprint, encode, nextId) && e.id == nextId
    requires fingerprint(e.key.values) == Some(e.hash) && e.plaintext == encode(e.key)
    ensures EntriesTrue(Inserted(entries, e, capacity), fingerprint, encode, nextId + 1)
  {
  }

  lemma InsertedIndex<P(!new)>(entries: seq<Entry<P>>, fingerprint: seq<Bits> -> Option<Bits>, encode: Key -> P, nextId: nat,
                               keyOf: (Bits, nat) -> Bits, e: Entry<P>, capacity: nat)
    requires EntriesTrue(entries, fingerprint, encode, nextId) && |entries| <= capacity && capacity > 0
    ensures |entries| == capacity ==>
              IndexOf(Inserted(entries, e, capacity), keyOf)
              == IndexOf(entries, keyOf) - {Bucket(entries[|entries| - 1], keyOf)} + {Bucket(e, keyOf)}
    ensures |entries| != capacity ==> IndexOf(Inserted(entries, e, capacity), keyOf) == IndexOf(entries, keyOf) + {Bucket(e, keyOf)}
  {
    if |entries| == capacity {
      var n := |entries| - 1;
      assert entries == entries[..n] + [entries[n]];
      assert forall x :: x in entries[..n] ==> x.id != entries[n].id;
    }
  }

  lemma LastRequest(requests: seq<Key>, k: Key, capacity: nat, admits: seq<Bits> -> bool)
    ensures Replayed(requests + [k], capacity, admits) == Served(Replayed(requests, capacity, admits), k, capacity, admits)
  {
    assert (requests + [k])[..|requests|] == requests;
  }

  /**
   * One request sequence through an indexed and a linear cache whose fingerprints admit the same values: same results, same
   * counters, same keys held in the same order.
   */
  method RunBoth<P(!new)>(capacity: nat, run: seq<Bits> -> Option<Bits>, plain: seq<Bits> -> Option<Bits>, keyOf: (Bits, nat) -> Bits,
                          encode: Key -> P, requests: seq<Key>)
    returns (a: MaskPlaintextCache<P>, b: MaskPlaintextCache<P>, results: seq<P>)
    requires forall values :: run(values).Some? <==> plain(values).Some?
    ensures fresh(a) && fresh(b) && a.Valid() && b.Valid() && a.indexed && !b.indexed
    ensures |results| == |requests| && forall i :: 0 <= i < |requests| ==> results[i] == encode(requests[i])
    ensures Keys(a.entries) == Keys(b.entries)
    ensures a.hits == b.hits && a.misses == b.misses && a.bypasses == b.bypasses && a.evictions == b.evictions
    ensures a.fingerprint == run && b.fingerprint == plain && a.capacity == b.capacity == capacity
  {
    hide EntriesTrue, Replayed, IndexOf, Keys;
    a := new MaskPlaintextCache(capacity, true, run, keyOf, encode);
    b := new MaskPlaintextCache(capacity, false, plain, keyOf, encode);
    results := [];
    for i := 0 to |requests|
      invariant fresh(a) && fresh(b) && a != b && a.Valid() && b.Valid()
      invariant a.capacity == b.capacity == capacity && a.fingerprint == run && b.fingerprint == plain
      invariant a.encode == b.encode == encode && a.indexed && !b.indexed
      invariant a.requests == b.requests == requests[..i]
      invariant |results| == i && forall j :: 0 <= j < i ==> results[j] == encode(requests[j])
    {
      var x := a.Get(requests[i], encode(requests[i]));
      var y := b.Get(requests[i], encode(requests[i]));
      results := results + [x];
      assert requests[..i + 1] == requests[..i] + [requests[i]];
    }
    SameAdmission(a.requests, capacity, a.Admits(), b.Admits());
  }

  /** The same for the two fingerprints of the program: runs when indexed, value by value when not. */
  method RunFingerprints<P(!new)>(capacity: nat, keyOf: (Bits, nat) -> Bits, encode: Key -> P, requests: seq<Key>)
    returns (a: MaskPlaintextCache<P>, b: MaskPlaintextCache<P>, results: seq<P>)
    ensures fresh(a) && fresh(b) && a.Valid() && b.Valid() && a.indexed && !b.indexed
    ensures a.fingerprint == RunMaskHash && b.fingerprint == MaskHash && a.capacity == b.capacity == capacity
    ensures |results| == |requests| && forall i :: 0 <= i < |requests| ==> results[i] == encode(requests[i])
    ensures Keys(a.entries) == Keys(b.entries)
    ensures a.hits == b.hits && a.misses == b.misses && a.bypasses == b.bypasses && a.evictions == b.evictions
  {
    hide Admitted, Hash, RunHash, Keys, EntriesTrue, Replayed, IndexOf;
    a, b, results := RunBoth(capacity, RunMaskHash, MaskHash, keyOf, encode, requests);
  }
}
