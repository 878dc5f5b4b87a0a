/** The `is_active` cache: a bounded map with expiry, against a plain history of writes. */
module ActiveCache {
  import opened Basics

  type Nft = U64

  datatype Entry = Entry(isActive: bool, fetchedAt: nat)

  type Entries = map<Nft, Entry>

  /** `nft` is a least recently fetched key; ties leave a choice. */
  predicate Oldest(entries: Entries, nft: Nft) {
    nft in entries && forall k :: k in entries ==> entries[nft].fetchedAt <= entries[k].fetchedAt
  }

  predicate MustEvict(entries: Entries, nft: Nft, max: nat) {
    |entries| >= max && nft !in entries
  }

  /** What an insertion may leave behind. */
  ghost predicate Inserted(before: Entries, nft: Nft, e: Entry, max: nat, after: Entries) {
    if MustEvict(before, nft, max)
    then exists oldest: Nft :: Oldest(before, oldest) && after == (before - {oldest})[nft := e]
    else after == before[nft := e]
  }

  function Elapsed(now: nat, then_: nat): nat {
    SaturatingSub(now, then_)
  }

  function Hit(entries: Entries, nft: Nft, ttl: nat, now: nat): Option<bool> {
    if nft in entries && Elapsed(now, entries[nft].fetchedAt) < ttl then Some(entries[nft].isActive) else None
  }

  class IsActiveCache {
    var entries: Entries
    const ttl: nat
    const maxEntries: nat

    constructor (ttl: nat, maxEntries: nat)
      ensures entries == map[] && this.ttl == ttl && this.maxEntries == Max1(maxEntries)
    {
      this.entries, this.ttl, this.maxEntries := map[], ttl, Max1(maxEntries);
    }

    method Get(nftId: Nft, now: nat) returns (r: Option<bool>)
      ensures r == Hit(entries, nftId, ttl, now)
    {
      if nftId !in entries { return None; }
      var e := entries[nftId];
      r := if Elapsed(now, e.fetchedAt) < ttl then Some(e.isActive) else None;
    }

    method FindOldest() returns (oldest: Nft)
      requires entries != map[]
      ensures Oldest(entries, oldest)
    {
      var left := entries.Keys;
      oldest :| oldest in left;
      left := left - {oldest};
      while left != {}
        invariant left <= entries.Keys && oldest in entries && oldest !in left
        invariant forall k :: k in entries && k !in left ==> entries[oldest].fetchedAt <= entries[k].fetchedAt
        decreases left
      {
        var k :| k in left;
        left := left - {k};
        if entries[k].fetchedAt < entries[oldest].fetchedAt { oldest := k; }
      }
    }

    method Insert(nftId: Nft, isActive: bool, now: nat)
      requires maxEntries >= 1
      modifies this
      ensures Inserted(old(entries), nftId, Entry(isActive, now), maxEntries, entries)
    {
      if |entries| >= maxEntries && nftId !in entries {
        var oldest := FindOldest();
        entries := entries - {oldest};
      }
      entries := entries[nftId := Entry(isActive, now)];
    }

    method Invalidate(nftId: Nft)
      modifies this
      ensures entries == old(entries) - {nftId}
    {
      entries := entries - {nftId};
    }

    /** Active and inactive entries that have not expired. */
    method LiveCounts(now: nat) returns (active: nat, inactive: nat)
      ensures active == |set k | k in entries && Hit(entries, k, ttl, now) == Some(true)|
      ensures inactive == |set k | k in entries && Hit(entries, k, ttl, now) == Some(false)|
    {
      var left := entries.Keys;
      active, inactive := 0, 0;
      ghost var on: set<Nft>, off: set<Nft> := {}, {};
      while left != {}
        invariant left <= entries.Keys
        invariant on == (set k | k in entries && k !in left && Hit(entries, k, ttl, now) == Some(true)) && active == |on|
        invariant off == (set k | k in entries && k !in left && Hit(entries, k, ttl, now) == Some(false)) && inactive == |off|
        decreases left
      {
        var k :| k in left;
        left := left - {k};
        if Elapsed(now, entries[k].fetchedAt) < ttl {
          if entries[k].isActive {
            active, on := active + 1, on + {k};
          } else {
            inactive, off := inactive + 1, off + {k};
          }
        }
      }
      assert on == set k | k in entries && Hit(entries, k, ttl, now) == Some(true);
      assert off == set k | k in entries && Hit(entries, k, ttl, now) == Some(false);
    }
  }

  function Max1(n: nat): nat {
    if n == 0 then 1 else n
  }

  // ----- against the history of writes -----------------------------------------------

  datatype Op = Put(nft: Nft, entry: Entry) | Drop(nft: Nft)

  ghost predicate Next(before: Entries, op: Op, max: nat, after: Entries) {
    match op
    case Put(k, e) => Inserted(before, k, e, max, after)
    case Drop(k) => after == before - {k}
  }

  /** One behaviour of the cache: the entries before and after each operation. */
  ghost predicate Behaviour(ops: seq<Op>, states: seq<Entries>, max: nat) {
    && |states| == |ops| + 1 && states[0] == map[]
    && forall i :: 0 <= i < |ops| ==> Next(states[i], ops[i], max, states[i + 1])
  }

  /** The last write to a key since it was last dropped. */
  function Latest(ops: seq<Op>, nft: Nft): Option<Entry> {
    if ops == [] then None
    else if ops[|ops| - 1].nft != nft then Latest(ops[..|ops| - 1], nft)
    else match ops[|ops| - 1]
      case Put(_, e) => Some(e)
      case Drop(_) => None
  }

  lemma FrontBehaviour(ops: seq<Op>, states: seq<Entries>, max: nat)
    requires Behaviour(ops, states, max) && ops != []
    ensures Behaviour(ops[..|ops| - 1], states[..|states| - 1], max)
    ensures Next(states[|ops| - 1], ops[|ops| - 1], max, states[|ops|])
  {
    var front, before := ops[..|ops| - 1], states[..|states| - 1];
    forall i | 0 <= i < |front| ensures Next(before[i], front[i], max, before[i + 1]) {
      assert Next(states[i], ops[i], max, states[i + 1]);
    }
  }

  lemma WithoutSize(before: Entries, nft: Nft)
    requires nft in before
    ensures |before - {nft}| == |before| - 1
  {
    var after := before - {nft};
    assert after.Keys == before.Keys - {nft};
    assert |after.Keys| == |after| && |before.Keys| == |before|;
  }

  lemma WithSize(before: Entries, nft: Nft, e: Entry)
    ensures |before[nft := e]| <= |before| + 1
    ensures nft in before ==> |before[nft := e]| == |before|
  {
    var after := before[nft := e];
    assert after.Keys == before.Keys + {nft};
    assert nft in before ==> after.Keys == before.Keys;
    assert |after.Keys| == |after| && |before.Keys| == |before|;
  }

  lemma InsertedSize(before: Entries, nft: Nft, e: Entry, max: nat, after: Entries)
    requires max >= 1 && |before| <= max && Inserted(before, nft, e, max, after)
    ensures |after| <= max
  {
    if MustEvict(before, nft, max) {
      var oldest: Nft :| Oldest(before, oldest) && after == (before - {oldest})[nft := e];
      WithoutSize(before, oldest);
      WithSize(before - {oldest}, nft, e);
    } else {
      WithSize(before, nft, e);
    }
  }

  lemma DroppedSize(before: Entries, nft: Nft)
    ensures |before - {nft}| <= |before|
  {
    if nft in before { WithoutSize(before, nft); } else { assert before - {nft} == before; }
  }

  /** Every entry is the latest write of its key, and there are never more than the capacity. */
  lemma {:induction false} CacheRefinesHistory(ops: seq<Op>, states: seq<Entries>, max: nat)
    requires max >= 1 && Behaviour(ops, states, max)
    ensures var now := states[|ops|];
      && (forall k :: k in now ==> Latest(ops, k) == Some(now[k]))
      && |now| <= max
  {
    if ops != [] {
      FrontBehaviour(ops, states, max);
      CacheRefinesHistory(ops[..|ops| - 1], states[..|states| - 1], max);
      var before, op := states[|ops| - 1], ops[|ops| - 1];
      match op
      case Put(k, e) => InsertedSize(before, k, e, max, states[|ops|]);
      case Drop(k) => DroppedSize(before, k);
    }
  }

  /** A look-up hits exactly a held key whose last write is less than the time to live ago, and answers what was written. */
  lemma HitIsLatest(ops: seq<Op>, states: seq<Entries>, max: nat, nft: Nft, ttl: nat, now: nat, b: bool)
    requires max >= 1 && Behaviour(ops, states, max)
    ensures Hit(states[|ops|], nft, ttl, now) == Some(b) <==>
      exists e :: nft in states[|ops|] && Latest(ops, nft) == Some(e) && e.isActive == b && ttl > 0 && now < e.fetchedAt + ttl
  {
    CacheRefinesHistory(ops, states, max);
    if nft in states[|ops|] { assert Latest(ops, nft) == Some(states[|ops|][nft]); }
  }

  // ----- which keys are held -------------------------------------------------------------

  predicate DistinctKeys(s: seq<Nft>) {
    forall i, j :: 0 <= i < j < |s| ==> s[i] != s[j]
  }

  function IndexOf(s: seq<Nft>, k: Nft): (i: nat)
    requires k in s
    ensures i < |s| && s[i] == k
  {
    if s[0] == k then 0 else 1 + IndexOf(s[1..], k)
  }

  function Without(s: seq<Nft>, i: nat): seq<Nft>
    requires i < |s|
  {
    s[..i] + s[i + 1..]
  }

  function MoveToFront(s: seq<Nft>, k: Nft): seq<Nft> {
    [k] + if k in s then Without(s, IndexOf(s, k)) else s
  }

  function Take(n: nat, s: seq<Nft>): seq<Nft> {
    if |s| <= n then s else s[..n]
  }

  /** The distinct keys written, most recent first. */
  function Recent(ops: seq<Op>): seq<Nft> {
    if ops == [] then [] else MoveToFront(Recent(ops[..|ops| - 1]), ops[|ops| - 1].nft)
  }

  ghost predicate OnlyPuts(ops: seq<Op>) {
    forall i :: 0 <= i < |ops| ==> ops[i].Put?
  }

  ghost predicate ClockRises(ops: seq<Op>) {
    forall i, j :: 0 <= i < j < |ops| && ops[i].Put? && ops[j].Put? ==> ops[i].entry.fetchedAt < ops[j].entry.fetchedAt
  }

  lemma MoveKeepsDistinct(s: seq<Nft>, k: Nft)
    requires DistinctKeys(s)
    ensures DistinctKeys(MoveToFront(s, k))
  {
    var moved := MoveToFront(s, k);
    var i := if k in s then IndexOf(s, k) else |s|;
    forall a, b | 0 <= a < b < |moved| ensures moved[a] != moved[b] {
      var q := if b - 1 < i then b - 1 else b;
      assert moved[b] == s[q];
      if a == 0 {
        assert k in s ==> s[i] == k && q != i;
      } else {
        assert moved[a] == s[if a - 1 < i then a - 1 else a];
      }
    }
  }

  lemma IndexUnique(s: seq<Nft>, k: Nft, i: nat)
    requires DistinctKeys(s) && i < |s| && s[i] == k
    ensures IndexOf(s, k) == i
  {}

  /** Cutting to the capacity before or after moving a key to the front is the same. */
  lemma TakeMove(n: nat, s: seq<Nft>, k: Nft)
    requires n >= 1 && DistinctKeys(s)
    ensures Take(n, MoveToFront(Take(n, s), k)) == Take(n, MoveToFront(s, k))
  {
    if |s| > n && k in s {
      var i := IndexOf(s, k);
      if i < n { MoveWithinCut(n, s, k); } else { MoveBeyondCut(n, s, k); }
    } else if |s| > n {
      assert k !in s[..n];
    }
  }

  lemma ConsPrefix(k: Nft, s: seq<Nft>, n: nat)
    requires 1 <= n <= |s| + 1
    ensures ([k] + s)[..n] == [k] + s[..n - 1]
  {}

  lemma WithoutLater(s: seq<Nft>, i: nat, n: nat)
    requires n <= i < |s|
    ensures Without(s, i)[..n] == s[..n]
  {}

  lemma WithoutEarlier(s: seq<Nft>, i: nat, n: nat)
    requires i < n <= |s|
    ensures Without(s, i)[..n - 1] == Without(s[..n], i)
  {}

  lemma MoveWithinCut(n: nat, s: seq<Nft>, k: Nft)
    requires DistinctKeys(s) && k in s && IndexOf(s, k) < n < |s|
    ensures Take(n, MoveToFront(s[..n], k)) == Take(n, MoveToFront(s, k))
  {
    var i := IndexOf(s, k);
    IndexUnique(s[..n], k, i);
    WithoutEarlier(s, i, n);
    ConsPrefix(k, Without(s, i), n);
  }

  lemma MoveBeyondCut(n: nat, s: seq<Nft>, k: Nft)
    requires n >= 1 && DistinctKeys(s) && k in s && n <= IndexOf(s, k)
    ensures Take(n, MoveToFront(s[..n], k)) == Take(n, MoveToFront(s, k))
  {
    var i := IndexOf(s, k);
    assert k !in s[..n] by {
      forall j | 0 <= j < n ensures s[..n][j] != k { assert s[..n][j] == s[j]; }
    }
    ConsPrefix(k, Without(s, i), n);
    ConsPrefix(k, s[..n], n);
    WithoutLater(s, i, n - 1);
    assert s[..n][..n - 1] == s[..n - 1];
  }

  ghost predicate SameKeys(entries: Entries, keys: seq<Nft>) {
    forall k :: k in entries <==> k in keys
  }

  ghost predicate LaterFirst(entries: Entries, keys: seq<Nft>) {
    forall i, j :: 0 <= i < j < |keys| && keys[i] in entries && keys[j] in entries ==>
      entries[keys[i]].fetchedAt > entries[keys[j]].fetchedAt
  }

  /** The entries hold exactly these keys, the more recent ones fetched later. */
  ghost predicate HoldsInOrder(entries: Entries, keys: seq<Nft>, latest: nat) {
    && SameKeys(entries, keys)
    && LaterFirst(entries, keys)
    && (forall k :: k in entries ==> entries[k].fetchedAt <= latest)
  }

  lemma {:induction false} SetCount(held: set<Nft>, keys: seq<Nft>)
    requires DistinctKeys(keys) && forall k :: k in held <==> k in keys
    ensures |held| == |keys|
  {
    if keys == [] {
      assert held == {};
    } else {
      var front, last := keys[..|keys| - 1], keys[|keys| - 1];
      assert keys == front + [last];
      SetCount(held - {last}, front);
    }
  }

  lemma KeyCount(entries: Entries, keys: seq<Nft>)
    requires DistinctKeys(keys) && SameKeys(entries, keys)
    ensures |entries| == |keys|
  {
    SetCount(entries.Keys, keys);
    assert |entries.Keys| == |entries|;
  }

  lemma OldestIsLast(entries: Entries, keys: seq<Nft>, latest: nat, oldest: Nft)
    requires HoldsInOrder(entries, keys, latest) && keys != [] && Oldest(entries, oldest)
    ensures oldest == keys[|keys| - 1]
  {
    var j :| 0 <= j < |keys| && keys[j] == oldest;
    assert keys[|keys| - 1] in entries;
  }

  /** Putting a fresh key in front of the others. */
  lemma FreshInFront(entries: Entries, keys: seq<Nft>, latest: nat, nft: Nft, e: Entry)
    requires HoldsInOrder(entries, keys, latest) && nft !in entries
    requires e.fetchedAt > latest || entries == map[]
    ensures HoldsInOrder(entries[nft := e], [nft] + keys, e.fetchedAt)
  {
    var after, all := entries[nft := e], [nft] + keys;
    forall i, j | 0 <= i < j < |all| && all[i] in after && all[j] in after
      ensures after[all[i]].fetchedAt > after[all[j]].fetchedAt
    {
      assert all[j] == keys[j - 1] && keys[j - 1] in entries;
      if i > 0 { assert all[i] == keys[i - 1] && keys[i - 1] in entries; }
    }
  }

  lemma SeqWithout(keys: seq<Nft>, i: nat, k: Nft)
    requires DistinctKeys(keys) && i < |keys|
    ensures k in Without(keys, i) <==> k in keys && k != keys[i]
  {
    var rest := Without(keys, i);
    if k in keys && k != keys[i] {
      var j := IndexOf(keys, k);
      assert rest[if j < i then j else j - 1] == k;
    }
    if k in rest {
      var j := IndexOf(rest, k);
      assert keys[if j < i then j else j + 1] == k;
    }
  }

  lemma OrderWithout(entries: Entries, keys: seq<Nft>, i: nat)
    requires LaterFirst(entries, keys) && i < |keys|
    ensures LaterFirst(entries - {keys[i]}, Without(keys, i))
  {
    var rest, after := Without(keys, i), entries - {keys[i]};
    forall a, b | 0 <= a < b < |rest| && rest[a] in after && rest[b] in after
      ensures after[rest[a]].fetchedAt > after[rest[b]].fetchedAt
    {
      var p, q := if a < i then a else a + 1, if b < i then b else b + 1;
      assert rest[a] == keys[p] && rest[b] == keys[q];
    }
  }

  /** Taking one key out. */
  lemma OneTakenOut(entries: Entries, keys: seq<Nft>, latest: nat, i: nat)
    requires HoldsInOrder(entries, keys, latest) && DistinctKeys(keys) && i < |keys|
    ensures HoldsInOrder(entries - {keys[i]}, Without(keys, i), latest)
  {
    OrderWithout(entries, keys, i);
    forall k ensures k in entries - {keys[i]} <==> k in Without(keys, i) { SeqWithout(keys, i, k); }
  }

  lemma EvictInOrder(entries: Entries, keys: seq<Nft>, latest: nat, nft: Nft, e: Entry, oldest: Nft)
    requires DistinctKeys(keys) && keys != [] && HoldsInOrder(entries, keys, latest)
    requires e.fetchedAt > latest && nft !in entries && Oldest(entries, oldest)
    ensures HoldsInOrder((entries - {oldest})[nft := e], Take(|keys|, MoveToFront(keys, nft)), e.fetchedAt)
  {
    OldestIsLast(entries, keys, latest, oldest);
    var rest := keys[..|keys| - 1];
    assert Without(keys, |keys| - 1) == rest;
    OneTakenOut(entries, keys, latest, |keys| - 1);
    FreshInFront(entries - {oldest}, rest, latest, nft, e);
    assert Take(|keys|, MoveToFront(keys, nft)) == [nft] + rest;
  }

  lemma DropThenPut(entries: Entries, nft: Nft, e: Entry)
    ensures (entries - {nft})[nft := e] == entries[nft := e]
  {}

  lemma RefreshInOrder(entries: Entries, keys: seq<Nft>, latest: nat, nft: Nft, e: Entry)
    requires DistinctKeys(keys) && HoldsInOrder(entries, keys, latest)
    requires e.fetchedAt > latest && nft in keys
    ensures HoldsInOrder(entries[nft := e], MoveToFront(keys, nft), e.fetchedAt)
  {
    var i := IndexOf(keys, nft);
    OneTakenOut(entries, keys, latest, i);
    FreshInFront(entries - {nft}, Without(keys, i), latest, nft, e);
    DropThenPut(entries, nft, e);
  }

  lemma GrowInOrder(entries: Entries, keys: seq<Nft>, latest: nat, nft: Nft, e: Entry)
    requires HoldsInOrder(entries, keys, latest) && nft !in entries
    requires e.fetchedAt > latest || entries == map[]
    ensures HoldsInOrder(entries[nft := e], MoveToFront(keys, nft), e.fetchedAt)
  {
    FreshInFront(entries, keys, latest, nft, e);
  }

  lemma MovedLength(keys: seq<Nft>, k: Nft)
    ensures |MoveToFront(keys, k)| == if k in keys then |keys| else |keys| + 1
  {}

  /** One write: the key comes to the front, and at capacity the last key falls off. */
  lemma PutInOrder(entries: Entries, keys: seq<Nft>, latest: nat, nft: Nft, e: Entry, max: nat, after: Entries)
    requires max >= 1 && DistinctKeys(keys) && |keys| <= max && HoldsInOrder(entries, keys, latest)
    requires e.fetchedAt > latest || entries == map[]
    requires Inserted(entries, nft, e, max, after)
    ensures HoldsInOrder(after, Take(max, MoveToFront(keys, nft)), e.fetchedAt)
  {
    KeyCount(entries, keys);
    if MustEvict(entries, nft, max) {
      var oldest := Evicted(entries, nft, e, max, after);
      assert |entries| == |keys| == max;
      EvictInOrder(entries, keys, latest, nft, e, oldest);
    } else {
      assert after == entries[nft := e];
      StayInOrder(entries, keys, latest, nft, e, max);
    }
  }

  lemma Evicted(entries: Entries, nft: Nft, e: Entry, max: nat, after: Entries) returns (oldest: Nft)
    requires Inserted(entries, nft, e, max, after) && MustEvict(entries, nft, max)
    ensures Oldest(entries, oldest) && after == (entries - {oldest})[nft := e]
  {
    oldest :| Oldest(entries, oldest) && after == (entries - {oldest})[nft := e];
  }

  lemma StayInOrder(entries: Entries, keys: seq<Nft>, latest: nat, nft: Nft, e: Entry, max: nat)
    requires DistinctKeys(keys) && HoldsInOrder(entries, keys, latest) && |entries| == |keys| <= max
    requires e.fetchedAt > latest || entries == map[]
    requires nft in entries || |entries| < max
    ensures HoldsInOrder(entries[nft := e], Take(max, MoveToFront(keys, nft)), e.fetchedAt)
  {
    assert nft in entries <==> nft in keys;
    if nft in entries {
      RefreshInOrder(entries, keys, latest, nft, e);
    } else {
      GrowInOrder(entries, keys, latest, nft, e);
    }
    MovedLength(keys, nft);
    assert Take(max, MoveToFront(keys, nft)) == MoveToFront(keys, nft);
  }

  lemma {:induction false} RecentDistinct(ops: seq<Op>)
    ensures DistinctKeys(Recent(ops))
  {
    if ops != [] {
      RecentDistinct(ops[..|ops| - 1]);
      MoveKeepsDistinct(Recent(ops[..|ops| - 1]), ops[|ops| - 1].nft);
    }
  }

  function LastTime(ops: seq<Op>): nat {
    if ops == [] || ops[|ops| - 1].Drop? then 0 else ops[|ops| - 1].entry.fetchedAt
  }

  lemma {:induction false} HoldsRecent(ops: seq<Op>, states: seq<Entries>, max: nat)
    requires max >= 1 && Behaviour(ops, states, max) && OnlyPuts(ops) && ClockRises(ops)
    ensures HoldsInOrder(states[|ops|], Take(max, Recent(ops)), LastTime(ops))
  {
    if ops != [] {
      var front, last := ops[..|ops| - 1], ops[|ops| - 1];
      FrontBehaviour(ops, states, max);
      HoldsRecent(front, states[..|states| - 1], max);
      RecentDistinct(front);
      TakeMove(max, Recent(front), last.nft);
      assert front != [] ==> LastTime(front) < last.entry.fetchedAt by {
        if front != [] { assert ops[|front| - 1].Put? && ops[|front|].Put?; }
      }
      PutInOrder(states[|ops| - 1], Take(max, Recent(front)), LastTime(front), last.nft, last.entry, max, states[|ops|]);
    }
  }

  /** The keys written after the last write of `nft`. */
  function WrittenSince(ops: seq<Op>, nft: Nft): set<Nft> {
    if ops == [] || ops[|ops| - 1].nft == nft then {}
    else WrittenSince(ops[..|ops| - 1], nft) + {ops[|ops| - 1].nft}
  }

  lemma MovedOverFrom(s: seq<Nft>, i: nat, j: nat)
    requires DistinctKeys(s) && i < j < |s|
    ensures var moved := [s[j]] + Without(s, j); i + 1 < |moved| && moved[i + 1] == s[i] && moved[..i + 1] == [s[j]] + s[..i]
  {
    WithoutLater(s, j, i);
    ConsPrefix(s[j], Without(s, j), i + 1);
  }

  lemma MovedOutFrom(s: seq<Nft>, i: nat, j: nat)
    requires DistinctKeys(s) && j < i < |s|
    ensures var moved := [s[j]] + Without(s, j); moved[i] == s[i] && moved[..i] == [s[j]] + Without(s[..i], j)
  {
    WithoutEarlier(s, j, i);
    ConsPrefix(s[j], Without(s, j), i);
  }

  /** Where `k` stands once `last` has moved to the front. */
  lemma MovedPlace(s: seq<Nft>, k: Nft, last: Nft) returns (at: nat)
    requires DistinctKeys(s) && k != last && k in s
    ensures var moved, i := MoveToFront(s, last), IndexOf(s, k);
      at < |moved| && moved[at] == k &&
      moved[..at] == if last in s[..i] then [last] + Without(s[..i], IndexOf(s[..i], last)) else [last] + s[..i]
  {
    var i := IndexOf(s, k);
    if last in s[..i] {
      var j := IndexOf(s[..i], last);
      IndexUnique(s, last, j);
      MovedOutFrom(s, i, j);
      at := i;
    } else if last in s {
      var j := IndexOf(s, last);
      assert s[j] == last && j != i;
      MovedOverFrom(s, i, j);
      at := i + 1;
    } else {
      assert ([last] + s)[..i + 1] == [last] + s[..i];
      at := i + 1;
    }
  }

  lemma MovedBehind(s: seq<Nft>, k: Nft, last: Nft)
    requires DistinctKeys(s) && k != last && k in s
    ensures k in MoveToFront(s, last)
    ensures forall x :: x in MoveToFront(s, last)[..IndexOf(MoveToFront(s, last), k)] <==> x == last || x in s[..IndexOf(s, k)]
  {
    var at := MovedPlace(s, k, last);
    MoveKeepsDistinct(s, last);
    IndexUnique(MoveToFront(s, last), k, at);
    var cut := s[..IndexOf(s, k)];
    if last in cut {
      var j := IndexOf(cut, last);
      forall x ensures x in [last] + Without(cut, j) <==> x == last || x in cut { SeqWithout(cut, j, x); }
    }
  }

  lemma MoveAddsOnly(s: seq<Nft>, k: Nft, last: Nft)
    requires DistinctKeys(s) && k != last && k in MoveToFront(s, last)
    ensures k in s
  {
    if last in s { SeqWithout(s, IndexOf(s, last), k); }
  }

  /** What stands before a key among the recent ones is what was written since. */
  lemma {:induction false} RecentMeaning(ops: seq<Op>, nft: Nft)
    requires OnlyPuts(ops)
    ensures nft in Recent(ops) <==> Latest(ops, nft).Some?
    ensures nft in Recent(ops) ==> forall x :: x in Recent(ops)[..IndexOf(Recent(ops), nft)] <==> x in WrittenSince(ops, nft)
  {
    if ops != [] {
      var front, last := ops[..|ops| - 1], ops[|ops| - 1].nft;
      RecentMeaning(front, nft);
      RecentDistinct(front);
      if nft != last {
        if nft in Recent(front) {
          MovedBehind(Recent(front), nft, last);
        } else if nft in Recent(ops) {
          MoveAddsOnly(Recent(front), nft, last);
        }
      }
    }
  }

  /** Among the first `n` recent keys are those since whose last write fewer than `n` others were written. */
  lemma AmongRecent(n: nat, ops: seq<Op>, nft: Nft)
    requires OnlyPuts(ops)
    ensures nft in Take(n, Recent(ops)) <==> Latest(ops, nft).Some? && |WrittenSince(ops, nft)| < n
  {
    var recent := Recent(ops);
    RecentMeaning(ops, nft);
    RecentDistinct(ops);
    if nft in recent {
      var i := IndexOf(recent, nft);
      SetCount(WrittenSince(ops, nft), recent[..i]);
      if i < n {
        assert Take(n, recent)[i] == nft;
      } else {
        forall j | 0 <= j < n ensures Take(n, recent)[j] != nft { assert Take(n, recent)[j] == recent[j]; }
      }
    }
  }

  /** With a rising clock and no invalidation a key is held exactly when it was written and, since its last write, fewer
      other keys were written than there is room for. */
  lemma HoldsMostRecent(ops: seq<Op>, states: seq<Entries>, max: nat, nft: Nft)
    requires max >= 1 && Behaviour(ops, states, max) && OnlyPuts(ops) && ClockRises(ops)
    ensures nft in states[|ops|] <==> Latest(ops, nft).Some? && |WrittenSince(ops, nft)| < max
  {
    HoldsRecent(ops, states, max);
    AmongRecent(max, ops, nft);
  }
}
