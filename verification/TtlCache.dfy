/**
  The dashboard's response cache: short-lived entries, with hot views pinned against eviction.

  A predicate compared with `true` is handled by the verifier as one fact, not as its
  conjuncts.
 */
module TtlCache {
  import opened Options

  datatype Entry<B> = Entry(storedAt: nat, body: B, pinned: bool)

  predicate Fresh<B>(e: Entry<B>, now: nat, ttl: nat) { now <= e.storedAt + ttl }

  function PinnedKeys<B>(entries: map<string, Entry<B>>): set<string> {
    set k | k in entries && entries[k].pinned
  }

  /** What is cached is the latest body put for its key, and every pinned one is cached. */
  ghost predicate Agrees<B>(entries: map<string, Entry<B>>, latest: map<string, Entry<B>>, clock: nat) {
    && (forall k | k in entries :: k in latest && entries[k] == latest[k])
    && (forall k | k in latest :: latest[k].storedAt <= clock)
    && (forall k | k in latest && latest[k].pinned :: k in entries)
  }

  /** Pinned entries can push the size past the limit, by themselves and one more. */
  ghost predicate SizeBounded<B>(entries: map<string, Entry<B>>, maxEntries: nat) {
    |entries| <= maxEntries || |entries| <= |PinnedKeys(entries)| + 1
  }

  /** The first pass of `Put`: expired entries go unless pinned. Each age check reads the clock anew. */
  function Retained<B>(entries: map<string, Entry<B>>, ttl: nat, at: string -> nat): map<string, Entry<B>> {
    map k | k in entries && (Fresh(entries[k], at(k), ttl) || entries[k].pinned) :: entries[k]
  }

  /** Entries that eviction may choose. */
  function Unpinned<B>(entries: map<string, Entry<B>>): set<string> {
    set k | k in entries && !entries[k].pinned
  }

  ghost predicate Oldest<B>(entries: map<string, Entry<B>>, k: string) {
    k in Unpinned(entries) && forall j | j in Unpinned(entries) :: entries[k].storedAt <= entries[j].storedAt
  }

  method OldestUnpinned<B>(entries: map<string, Entry<B>>) returns (victim: Option<string>)
    ensures victim.None? ==> Unpinned(entries) == {}
    ensures victim.Some? ==> Oldest(entries, victim.value)
  {
    victim := None;
    var left := Unpinned(entries);
    while left != {}
      invariant left <= Unpinned(entries)
      invariant victim.None? ==> left == Unpinned(entries)
      invariant victim.Some? ==> victim.value in Unpinned(entries) - left
      invariant victim.Some? ==>
                forall j | j in Unpinned(entries) - left :: entries[victim.value].storedAt <= entries[j].storedAt
      decreases left
    {
      var k :| k in left;
      if victim.None? || entries[k].storedAt < entries[victim.value].storedAt {
        victim := Some(k);
      }
      left := left - {k};
    }
  }

  lemma AllPinned<B>(entries: map<string, Entry<B>>)
    requires Unpinned(entries) == {}
    ensures |PinnedKeys(entries)| == |entries|
  {
    forall k | k in entries ensures k in PinnedKeys(entries) {
      assert k !in Unpinned(entries);
    }
    assert PinnedKeys(entries) == entries.Keys;
  }

  lemma RetainedSize<B>(entries: map<string, Entry<B>>, ttl: nat, at: string -> nat, maxEntries: nat)
    requires SizeBounded(entries, maxEntries)
    ensures SizeBounded(Retained(entries, ttl, at), maxEntries)
  {
    var kept := Retained(entries, ttl, at);
    Subset(kept.Keys, entries.Keys);
    assert PinnedKeys(kept) == PinnedKeys(entries);
  }

  lemma {:induction false} Subset<T>(a: set<T>, b: set<T>)
    requires a <= b
    ensures |a| <= |b|
  {
    assert b == a + (b - a);
  }

  lemma RemovedSize<B>(entries: map<string, Entry<B>>, victim: string)
    requires victim in Unpinned(entries)
    ensures |entries - {victim}| == |entries| - 1 && PinnedKeys(entries - {victim}) == PinnedKeys(entries)
  {
    assert (entries - {victim}).Keys == entries.Keys - {victim};
  }

  /** Storing under a new key. */
  lemma InsertedSize<B>(entries: map<string, Entry<B>>, key: string, e: Entry<B>, maxEntries: nat)
    requires key !in entries
    requires |entries| < maxEntries || |entries| <= |PinnedKeys(entries)|
    ensures SizeBounded(entries[key := e], maxEntries)
  {
    assert entries[key := e].Keys == entries.Keys + {key};
    Subset(PinnedKeys(entries), PinnedKeys(entries[key := e]));
  }

  /** Storing under a key again, pinned as before. */
  lemma ReplacedSize<B>(entries: map<string, Entry<B>>, key: string, e: Entry<B>, maxEntries: nat)
    requires key in entries && entries[key].pinned == e.pinned && SizeBounded(entries, maxEntries)
    ensures SizeBounded(entries[key := e], maxEntries)
  {
    assert entries[key := e].Keys == entries.Keys;
    assert PinnedKeys(entries[key := e]) == PinnedKeys(entries);
  }

  /** The entries once room has been made for `key`. */
  ghost predicate RoomMade<B>(kept: map<string, Entry<B>>, room: map<string, Entry<B>>, key: string, maxEntries: nat) {
    if |kept| >= maxEntries && key !in kept && Unpinned(kept) != {}
    then exists victim :: Oldest(kept, victim) && room == kept - {victim}
    else room == kept
  }

  lemma RoomKeepsSize<B>(kept: map<string, Entry<B>>, room: map<string, Entry<B>>, key: string, e: Entry<B>,
                         maxEntries: nat)
    requires SizeBounded(kept, maxEntries) && RoomMade(kept, room, key, maxEntries)
    requires key in kept ==> kept[key].pinned == e.pinned
    ensures SizeBounded(room[key := e], maxEntries)
  {
    if key in kept {
      ReplacedSize(kept, key, e, maxEntries);
    } else if |kept| < maxEntries {
      InsertedSize(kept, key, e, maxEntries);
    } else if Unpinned(kept) == {} {
      AllPinned(kept);
      InsertedSize(kept, key, e, maxEntries);
    } else {
      var victim :| Oldest(kept, victim) && room == kept - {victim};
      RemovedSize(kept, victim);
      InsertedSize(room, key, e, maxEntries);
    }
  }

  /** Nothing but unpinned entries is given up. */
  ghost predicate Narrowed<B>(entries: map<string, Entry<B>>, room: map<string, Entry<B>>) {
    && (forall k | k in room :: k in entries && room[k] == entries[k])
    && (forall k | k in entries && entries[k].pinned :: k in room)
  }

  lemma RoomNarrows<B>(entries: map<string, Entry<B>>, ttl: nat, at: string -> nat, room: map<string, Entry<B>>,
                       key: string, maxEntries: nat)
    requires RoomMade(Retained(entries, ttl, at), room, key, maxEntries)
    ensures Narrowed(entries, room)
  {
    var kept := Retained(entries, ttl, at);
    assert Narrowed(entries, kept);
    if room != kept {
      var victim :| Oldest(kept, victim) && room == kept - {victim};
      assert !kept[victim].pinned;
    }
  }

  /** The cache was full of other keys, and `k` was an oldest unpinned entry. */
  ghost predicate LostRoom<B>(kept: map<string, Entry<B>>, key: string, maxEntries: nat, k: string) {
    |kept| >= maxEntries && key !in kept && Oldest(kept, k)
  }

  lemma PutLoses<B>(entries: map<string, Entry<B>>, ttl: nat, at: string -> nat, now: nat, room: map<string, Entry<B>>,
                    key: string, maxEntries: nat)
    requires RoomMade(Retained(entries, ttl, at), room, key, maxEntries) && forall k :: at(k) <= now
    ensures forall k | k in room :: k in entries && room[k] == entries[k]
    ensures forall k | k in entries && k !in room && Fresh(entries[k], now, ttl) ::
              LostRoom(Retained(entries, ttl, at), key, maxEntries, k)
    ensures forall j, k | j in entries && k in entries && j !in room && k !in room
                          && Fresh(entries[j], now, ttl) && Fresh(entries[k], now, ttl) :: j == k
  {
    RoomNarrows(entries, ttl, at, room, key, maxEntries);
    var kept := Retained(entries, ttl, at);
    forall k | k in entries && k !in room && Fresh(entries[k], now, ttl)
      ensures LostRoom(kept, key, maxEntries, k) && room == kept - {k}
    {
      GivenUp(entries, ttl, at, now, room, key, maxEntries, k);
    }
    forall j, k | j in entries && k in entries && j !in room && k !in room
                  && Fresh(entries[j], now, ttl) && Fresh(entries[k], now, ttl)
      ensures j == k
    {
      GivenUp(entries, ttl, at, now, room, key, maxEntries, j);
      GivenUp(entries, ttl, at, now, room, key, maxEntries, k);
      assert j in kept && j !in kept - {k};
    }
  }

  /** A fresh entry is given up only when the cache is full of other keys, and then it is the oldest unpinned one. */
  lemma GivenUp<B>(entries: map<string, Entry<B>>, ttl: nat, at: string -> nat, now: nat, room: map<string, Entry<B>>,
                   key: string, maxEntries: nat, k: string)
    requires RoomMade(Retained(entries, ttl, at), room, key, maxEntries)
    requires k in entries && at(k) <= now && Fresh(entries[k], now, ttl) && k !in room
    ensures var kept := Retained(entries, ttl, at);
            |kept| >= maxEntries && key !in kept && Oldest(kept, k) && room == kept - {k}
  {
    assert k in Retained(entries, ttl, at);
  }

  /** No other entry changes, and expired ones that are not pinned go. */
  ghost predicate OthersKept<B>(before: map<string, Entry<B>>, after: map<string, Entry<B>>, ttl: nat,
                                at: string -> nat, key: string) {
    && (forall k | k in after && k != key :: k in before && after[k] == before[k])
    && (forall k | k in after && k != key && !after[k].pinned :: at(k) <= after[k].storedAt + ttl)
  }

  /** At most one fresh entry goes, and only an oldest unpinned one of a cache full of other keys. */
  ghost predicate OneLost<B>(before: map<string, Entry<B>>, after: map<string, Entry<B>>, ttl: nat, at: string -> nat,
                             now: nat, key: string, maxEntries: nat) {
    && (forall k | k in before && k !in after && Fresh(before[k], now, ttl) ::
          LostRoom(Retained(before, ttl, at), key, maxEntries, k))
    && (forall j, k | j in before && k in before && j !in after && k !in after
                      && Fresh(before[j], now, ttl) && Fresh(before[k], now, ttl) :: j == k)
  }

  lemma PutChanges<B>(entries: map<string, Entry<B>>, ttl: nat, at: string -> nat, room: map<string, Entry<B>>,
                      key: string, e: Entry<B>, maxEntries: nat)
    requires RoomMade(Retained(entries, ttl, at), room, key, maxEntries) && forall k :: at(k) <= e.storedAt
    ensures OthersKept(entries, room[key := e], ttl, at, key)
    ensures OneLost(entries, room[key := e], ttl, at, e.storedAt, key, maxEntries)
  {
    RoomKept(entries, ttl, at, room, key, maxEntries);
    PutLoses(entries, ttl, at, e.storedAt, room, key, maxEntries);
    FewerLost(entries, room, room[key := e], ttl, at, e.storedAt, key, maxEntries);
  }

  lemma RoomKept<B>(entries: map<string, Entry<B>>, ttl: nat, at: string -> nat, room: map<string, Entry<B>>,
                    key: string, maxEntries: nat)
    requires RoomMade(Retained(entries, ttl, at), room, key, maxEntries)
    ensures OthersKept(entries, room, ttl, at, key)
  {
    var kept := Retained(entries, ttl, at);
    if room != kept {
      var victim :| Oldest(kept, victim) && room == kept - {victim};
    }
    assert forall k | k in room :: k in kept && room[k] == kept[k];
  }

  lemma FewerLost<B>(before: map<string, Entry<B>>, after: map<string, Entry<B>>, after': map<string, Entry<B>>,
                     ttl: nat, at: string -> nat, now: nat, key: string, maxEntries: nat)
    requires OneLost(before, after, ttl, at, now, key, maxEntries) && after.Keys <= after'.Keys
    ensures OneLost(before, after', ttl, at, now, key, maxEntries)
  {
  }

  /** Room for a key: in a full cache an oldest unpinned entry goes, if there is one. */
  method RoomFor<B>(kept: map<string, Entry<B>>, key: string, maxEntries: nat) returns (room: map<string, Entry<B>>)
    ensures RoomMade(kept, room, key, maxEntries)
  {
    room := kept;
    if |kept| >= maxEntries && key !in kept {
      var victim := OldestUnpinned(kept);
      if victim.Some? {
        room := kept - {victim.value};
      }
    }
  }

  lemma PutAgrees<B>(entries: map<string, Entry<B>>, latest: map<string, Entry<B>>, clock: nat,
                     room: map<string, Entry<B>>, key: string, e: Entry<B>)
    requires Agrees(entries, latest, clock) && clock <= e.storedAt && Narrowed(entries, room)
    ensures Agrees(room[key := e], latest[key := e], e.storedAt)
  {
  }

  /** Both halves of the cache's invariant, as one fact. */
  ghost predicate Sound<B>(entries: map<string, Entry<B>>, latest: map<string, Entry<B>>, clock: nat, steady: bool,
                           maxEntries: nat) {
    (Agrees(entries, latest, clock) && (steady ==> SizeBounded(entries, maxEntries))) == true
  }

  lemma PutSound<B>(entries: map<string, Entry<B>>, latest: map<string, Entry<B>>, clock: nat, steady: bool,
                    ttl: nat, at: string -> nat, room: map<string, Entry<B>>, key: string, e: Entry<B>, maxEntries: nat)
    requires Sound(entries, latest, clock, steady, maxEntries) && clock <= e.storedAt
    requires RoomMade(Retained(entries, ttl, at), room, key, maxEntries)
    ensures Sound(room[key := e], latest[key := e], e.storedAt,
                  steady && (key in entries ==> entries[key].pinned == e.pinned), maxEntries)
  {
    RoomNarrows(entries, ttl, at, room, key, maxEntries);
    PutAgrees(entries, latest, clock, room, key, e);
    if steady && (key in entries ==> entries[key].pinned == e.pinned) {
      RetainedSize(entries, ttl, at, maxEntries);
      RoomKeepsSize(Retained(entries, ttl, at), room, key, e, maxEntries);
    }
  }

  /** An invariant of the cache that its users rely on: what it caches was put, and the size bound. */
  lemma SoundMeans<B>(entries: map<string, Entry<B>>, latest: map<string, Entry<B>>, clock: nat, steady: bool,
                      maxEntries: nat)
    requires Sound(entries, latest, clock, steady, maxEntries)
    ensures entries.Keys <= latest.Keys && PinnedKeys(entries) == PinnedKeys(latest)
    ensures steady ==> |entries| <= maxEntries || |entries| <= |PinnedKeys(latest)| + 1
  {
    assert PinnedKeys(entries) == PinnedKeys(latest);
  }

  class TtlCache<B> {
    var entries: map<string, Entry<B>>
    var hits: nat
    var misses: nat
    const ttl: nat
    const maxEntries: nat
    /** The latest entry put under each key, the latest clock reading, and whether each key was always pinned alike. */
    ghost var latest: map<string, Entry<B>>
    ghost var clock: nat
    ghost var steady: bool

    ghost predicate Valid()
      reads this
    {
      Sound(entries, latest, clock, steady, maxEntries)
    }

    constructor (ttl: nat, maxEntries: nat, now: nat)
      ensures Valid() && latest == map[] && clock == now && steady && this.ttl == ttl
      ensures this.maxEntries == if maxEntries < 4 then 4 else maxEntries
    {
      entries, hits, misses := map[], 0, 0;
      this.ttl, this.maxEntries := ttl, if maxEntries < 4 then 4 else maxEntries;
      latest, clock, steady := map[], now, true;
    }

    /**
      A hit is the latest body put under the key, no older than the lifetime; a
      pinned key hits exactly when that is what there is.
     */
    method Get(key: string, now: nat) returns (body: Option<B>)
      requires Valid() && clock <= now
      modifies this
      ensures Valid() && clock == now && latest == old(latest) && steady == old(steady) && entries == old(entries)
      ensures body.Some? ==> key in latest && Fresh(latest[key], now, ttl) && body.value == latest[key].body
      ensures key in latest && latest[key].pinned ==> (body.Some? <==> Fresh(latest[key], now, ttl))
      ensures body.Some? <==> key in entries && Fresh(entries[key], now, ttl)
      ensures hits == old(hits) + (if body.Some? then 1 else 0)
      ensures misses == old(misses) + (if body.None? && key in entries then 1 else 0)
    {
      clock := now;
      if key !in entries {
        return None;
      }
      if now - entries[key].storedAt <= ttl {
        hits := hits + 1;
        body := Some(entries[key].body);
      } else {
        misses := misses + 1;
        body := None;
      }
    }

    /**
      Stores a body. An entry that is still fresh is given up only if the cache is
      full of other keys, it is unpinned, and no unpinned entry is older; at most
      one is.
     */
    method Put(key: string, body: B, pinned: bool, at: string -> nat, now: nat)
      requires Valid() && clock <= now && forall k :: clock <= at(k) <= now
      modifies this
      ensures Valid() && clock == now
      ensures latest == old(latest)[key := Entry(now, body, pinned)]
      ensures steady == (old(steady) && (key in old(entries) ==> old(entries)[key].pinned == pinned))
      ensures key in entries && entries[key] == Entry(now, body, pinned)
      ensures OthersKept(old(entries), entries, ttl, at, key)
      ensures OneLost(old(entries), entries, ttl, at, now, key, maxEntries)
      ensures steady ==> |entries| <= maxEntries || |entries| <= |PinnedKeys(latest)| + 1
    {
      var room := RoomFor(Retained(entries, ttl, at), key, maxEntries);
      ghost var e := Entry(now, body, pinned);
      PutSound(entries, latest, clock, steady, ttl, at, room, key, e, maxEntries);
      PutChanges(entries, ttl, at, room, key, e, maxEntries);
      steady := steady && (key in entries ==> entries[key].pinned == pinned);
      entries, latest, clock := room[key := Entry(now, body, pinned)], latest[key := e], now;
      SoundMeans(entries, latest, clock, steady, maxEntries);
    }
  }
}
