/** The peers announced to us: for every info hash an array of peers that doubles
    when it is full and loses expired peers by swapping in the last one.  The whole
    refines a map from hash to peer to the time of the last announcement. */
module PeerStore {
  import opened Ids
  import opened Seqs

  const MAX_PEERS: nat := 2048
  const MAX_HASHES: nat := 16384
  const LIFETIME: nat := 32 * 60

  // len is the length of ip
  datatype Key = Key(ip: seq<Byte>, port: int)
  datatype Peer = Peer(time: int, key: Key)

  type Times = map<Key, int>
  type Contents = map<Id, Times>

  // ----- the store as a map -----

  datatype StoreResult = StoreResult(contents: Contents, rc: int)

  // storage_store
  function Stored(c: Contents, id: Id, key: Key, now: int): StoreResult
  {
    if id !in c && |c| >= MAX_HASHES then StoreResult(c, -1)
    else
      var m := if id in c then c[id] else map[];
      if key in m then StoreResult(c[id := m[key := now]], 0)
      else if |m| >= MAX_PEERS then StoreResult(c, 0)
      else StoreResult(c[id := m[key := now]], 1)
  }

  function Fresh(m: Times, now: int): Times
  {
    map k | k in m && m[k] >= now - LIFETIME :: m[k]
  }

  // expire_storage
  function Expired(c: Contents, now: int): Contents
  {
    map id | id in c && Fresh(c[id], now) != map[] :: Fresh(c[id], now)
  }

  // ----- the peers of one hash -----

  ghost predicate DistinctKeys(ps: seq<Peer>)
  {
    forall i: nat, j: nat | i < j < |ps| :: ps[i].key != ps[j].key
  }

  ghost function TimesOf(ps: seq<Peer>): Times
  {
    if ps == [] then map[] else TimesOf(ps[..|ps| - 1])[ps[|ps| - 1].key := ps[|ps| - 1].time]
  }

  lemma {:induction false} TimesOfMembers(ps: seq<Peer>)
    requires DistinctKeys(ps)
    ensures |TimesOf(ps)| == |ps|
    ensures forall i: nat | i < |ps| :: ps[i].key in TimesOf(ps) && TimesOf(ps)[ps[i].key] == ps[i].time
    ensures forall k | k in TimesOf(ps) :: exists i: nat :: i < |ps| && ps[i].key == k
  {
    if ps != [] {
      var n := |ps| - 1;
      var m := TimesOf(ps[..n]);
      TimesOfMembers(ps[..n]);
      assert TimesOf(ps) == m[ps[n].key := ps[n].time];
      hide TimesOf;
      assert forall i: nat | i < n :: ps[..n][i] == ps[i] && ps[i].key != ps[n].key;
      assert ps[n].key !in m;
      forall i: nat | i < |ps| ensures ps[i].key in TimesOf(ps) && TimesOf(ps)[ps[i].key] == ps[i].time {
        if i < n {
          assert ps[..n][i] == ps[i];
        }
      }
      forall k | k in TimesOf(ps) ensures exists i: nat :: i < |ps| && ps[i].key == k {
        if k == ps[n].key {
        } else {
          var i: nat :| i < n && ps[..n][i].key == k;
          assert ps[i].key == k;
        }
      }
    }
  }

  // The map is determined by its pairs, whatever their order.
  lemma TimesOfIs(ps: seq<Peer>, m: Times)
    requires DistinctKeys(ps)
    requires forall i: nat | i < |ps| :: ps[i].key in m && m[ps[i].key] == ps[i].time
    requires forall k | k in m :: exists i: nat :: i < |ps| && ps[i].key == k
    ensures TimesOf(ps) == m
  {
    hide TimesOf;
    TimesOfMembers(ps);
    forall k ensures k in TimesOf(ps) <==> k in m {
      if k in TimesOf(ps) {
        var i: nat :| i < |ps| && ps[i].key == k;
      }
      if k in m {
        var i: nat :| i < |ps| && ps[i].key == k;
      }
    }
    forall k | k in m ensures TimesOf(ps)[k] == m[k] {
      var i: nat :| i < |ps| && ps[i].key == k;
    }
  }

  lemma RefreshedTimes(ps: seq<Peer>, i: nat, now: int)
    requires DistinctKeys(ps) && i < |ps|
    ensures DistinctKeys(ps[i := ps[i].(time := now)])
    ensures TimesOf(ps[i := ps[i].(time := now)]) == TimesOf(ps)[ps[i].key := now]
  {
    hide TimesOf;
    var qs := ps[i := ps[i].(time := now)];
    TimesOfMembers(ps);
    var m := TimesOf(ps)[ps[i].key := now];
    forall k | k in m ensures exists j: nat :: j < |qs| && qs[j].key == k {
      if k != ps[i].key {
        var j: nat :| j < |ps| && ps[j].key == k;
        assert qs[j].key == k;
      } else {
        assert qs[i].key == k;
      }
    }
    TimesOfIs(qs, m);
  }

  lemma AddedTimes(ps: seq<Peer>, p: Peer)
    requires DistinctKeys(ps) && forall i: nat | i < |ps| :: ps[i].key != p.key
    ensures DistinctKeys(ps + [p]) && TimesOf(ps + [p]) == TimesOf(ps)[p.key := p.time]
  {
    assert (ps + [p])[..|ps|] == ps;
  }

  // The peers of ps that were announced within the last 32 minutes.
  lemma FreshTimes(ps: seq<Peer>, qs: seq<Peer>, now: int)
    requires DistinctKeys(ps) && DistinctKeys(qs)
    requires forall q :: q in qs <==> q in ps && q.time >= now - LIFETIME
    ensures TimesOf(qs) == Fresh(TimesOf(ps), now)
  {
    hide TimesOf;
    TimesOfMembers(ps);
    var m := Fresh(TimesOf(ps), now);
    forall i: nat | i < |qs| ensures qs[i].key in m && m[qs[i].key] == qs[i].time {
      assert qs[i] in qs;
      var j: nat :| j < |ps| && ps[j] == qs[i];
    }
    forall k | k in m ensures exists i: nat :: i < |qs| && qs[i].key == k {
      var j: nat :| j < |ps| && ps[j].key == k;
      assert ps[j] in ps && ps[j] in qs;
      var i: nat :| i < |qs| && qs[i] == ps[j];
    }
    TimesOfIs(qs, m);
  }

  class Storage {
    const id: Id
    var peers: array<Peer>
    var numpeers: nat
    var maxpeers: nat

    ghost predicate Valid()
      reads this, peers
    {
      && peers.Length == maxpeers <= MAX_PEERS && numpeers <= maxpeers
      && (maxpeers == 0 || PowerOfTwo(maxpeers))
      && DistinctKeys(peers[..numpeers])
    }

    ghost function Times(): Times
      requires Valid()
      reads this, peers
    {
      TimesOf(peers[..numpeers])
    }

    constructor (hash: Id)
      ensures Valid() && id == hash && numpeers == 0 && Times() == map[] && fresh(peers)
    {
      id, numpeers, maxpeers := hash, 0, 0;
      peers := new Peer[0];
    }

    // The search for a peer that is already there
    method FindPeer(key: Key) returns (i: nat)
      requires Valid()
      ensures i <= numpeers && (i < numpeers ==> peers[i].key == key)
      ensures forall j: nat | j < i :: peers[j].key != key
    {
      i := 0;
      while i < numpeers && peers[i].key != key
        invariant i <= numpeers
        invariant forall j: nat | j < i :: peers[j].key != key
      {
        i := i + 1;
      }
    }

    // The part of storage_store that works on one hash
    method Store(key: Key, now: int) returns (rc: int)
      requires Valid()
      modifies this, peers
      ensures Valid() && (peers == old(peers) || fresh(peers))
      ensures |old(Times())| == old(numpeers)
      ensures rc == if key in old(Times()) then 0 else if old(numpeers) >= MAX_PEERS then 0 else 1
      ensures Times() ==
        if key !in old(Times()) && old(numpeers) >= MAX_PEERS then old(Times()) else old(Times())[key := now]
      ensures numpeers == if rc == 1 then old(numpeers) + 1 else old(numpeers)
    {
      hide TimesOf, PowerOfTwo;
      ghost var ps := peers[..numpeers];
      TimesOfMembers(ps);
      var i := FindPeer(key);
      if i < numpeers {
        peers[i] := peers[i].(time := now);
        RefreshedTimes(ps, i, now);
        assert peers[..numpeers] == ps[i := ps[i].(time := now)];
        assert ps[i].key == key;
        return 0;
      }
      if i >= maxpeers {
        if maxpeers >= MAX_PEERS {
          return 0;
        }
        Grow();
      }
      peers[numpeers] := Peer(now, key);
      numpeers := numpeers + 1;
      AddedTimes(ps, Peer(now, key));
      assert peers[..numpeers] == ps + [Peer(now, key)];
      rc := 1;
    }

    // realloc to twice the size
    method Grow()
      requires Valid() && maxpeers < MAX_PEERS
      modifies this`peers, this`maxpeers
      ensures Valid() && fresh(peers) && maxpeers == (if old(maxpeers) == 0 then 2 else 2 * old(maxpeers))
      ensures peers[..numpeers] == old(peers[..numpeers])
    {
      var n := if maxpeers == 0 then 2 else 2 * maxpeers;
      n := if n <= MAX_PEERS then n else MAX_PEERS;
      DoublingStaysWithin(maxpeers);
      ghost var ps := peers[..numpeers];
      var grown := new Peer[n](_ => Peer(0, Key([], 0)));
      forall j | 0 <= j < numpeers {
        grown[j] := peers[j];
      }
      peers := grown;
      maxpeers := n;
      assert peers[..numpeers] == ps;
    }

    // The loop of expire_storage over the peers of one hash
    method Expire(now: int)
      requires Valid()
      modifies this`numpeers, peers
      ensures Valid() && Times() == Fresh(old(Times()), now)
      ensures numpeers == |Times()|
    {
      hide TimesOf, PowerOfTwo, Fresh, Sifted;
      ghost var ps := peers[..numpeers];
      StartSifting(ps, now);
      var i := 0;
      while i < numpeers
        invariant i <= numpeers <= |ps| <= peers.Length
        invariant Sifted(ps, peers[..numpeers], i, now)
        decreases numpeers - i
      {
        if peers[i].time < now - LIFETIME {
          ghost var before := peers[..numpeers];
          if i != numpeers - 1 {
            peers[i] := peers[numpeers - 1];
          }
          numpeers := numpeers - 1;
          DropOne(ps, before, peers[..numpeers], i, now);
        } else {
          KeepOne(ps, peers[..numpeers], i, now);
          i := i + 1;
        }
      }
      SiftedAll(ps, peers[..numpeers], now);
      TimesOfMembers(peers[..numpeers]);
    }
  }

  // The state of the expiry loop: qs is what is left of ps, and its first i entries
  // are known to be fresh.
  ghost predicate Sifted(ps: seq<Peer>, qs: seq<Peer>, i: nat, now: int)
  {
    && i <= |qs| && DistinctKeys(ps) && DistinctKeys(qs)
    && (forall j: nat | j < i :: qs[j].time >= now - LIFETIME)
    && (forall p | p in qs :: p in ps)
    && (forall p | p in ps && p.time >= now - LIFETIME :: p in qs)
  }

  lemma StartSifting(ps: seq<Peer>, now: int)
    requires DistinctKeys(ps)
    ensures Sifted(ps, ps, 0, now)
  {}

  lemma KeepOne(ps: seq<Peer>, qs: seq<Peer>, i: nat, now: int)
    requires Sifted(ps, qs, i, now) && i < |qs| && qs[i].time >= now - LIFETIME
    ensures Sifted(ps, qs, i + 1, now)
  {}

  lemma DropOne(ps: seq<Peer>, qs: seq<Peer>, rs: seq<Peer>, i: nat, now: int)
    requires Sifted(ps, qs, i, now) && i < |qs| && qs[i].time < now - LIFETIME
    requires |rs| == |qs| - 1 && forall j: nat | j < |rs| :: rs[j] == if j == i then qs[|qs| - 1] else qs[j]
    ensures Sifted(ps, rs, i, now) && DistinctKeys(rs)
  {
    SwappedOut(qs, rs, i);
  }

  lemma SiftedAll(ps: seq<Peer>, qs: seq<Peer>, now: int)
    requires Sifted(ps, qs, |qs|, now)
    ensures TimesOf(qs) == Fresh(TimesOf(ps), now) && DistinctKeys(qs)
  {
    forall q ensures q in qs <==> q in ps && q.time >= now - LIFETIME {
      if q in qs {
        var j: nat :| j < |qs| && qs[j] == q;
      }
    }
    FreshTimes(ps, qs, now);
  }

  // Swapping the last element into slot i removes exactly element i.
  lemma SwappedOut(a: seq<Peer>, b: seq<Peer>, i: nat)
    requires i < |a| && |b| == |a| - 1 && DistinctKeys(a)
    requires forall j: nat | j < |b| :: b[j] == if j == i then a[|a| - 1] else a[j]
    ensures DistinctKeys(b)
    ensures forall p :: p in b <==> p in a && p != a[i]
  {
    forall p | p in b ensures p in a && p != a[i] {
      var j: nat :| j < |b| && b[j] == p;
    }
    forall p | p in a && p != a[i] ensures p in b {
      var j: nat :| j < |a| && a[j] == p;
      assert b[if j == |a| - 1 then i else j] == p;
    }
  }

  ghost predicate PowerOfTwo(n: nat)
  {
    n == 1 || (n > 1 && n % 2 == 0 && PowerOfTwo(n / 2))
  }

  // 2048 is reached by doubling, so MIN(n, 2048) never cuts.
  lemma DoublingStaysWithin(n: nat)
    requires n < MAX_PEERS && (n == 0 || PowerOfTwo(n))
    ensures n > 0 ==> 2 * n <= MAX_PEERS && PowerOfTwo(2 * n)
    ensures PowerOfTwo(2)
  {
    assert PowerOfTwo(1);
    if n > 0 {
      assert 2 * n / 2 == n;
      BelowPower(n, 2048);
    }
  }

  lemma {:induction false} BelowPower(n: nat, m: nat)
    requires 0 < n < m && PowerOfTwo(n) && PowerOfTwo(m)
    ensures 2 * n <= m
  {
    if n > 1 {
      BelowPower(n / 2, m / 2);
    }
  }

  // ----- all hashes -----

  class Store {
    var storage: seq<Storage>
    var numstorage: int
    ghost var contents: Contents

    ghost predicate Valid()
      reads this, storage, set st | st in storage :: st.peers
    {
      numstorage == |storage| <= MAX_HASHES && Entries(storage, contents)
    }

    constructor ()
      ensures Valid() && contents == map[]
    {
      storage, numstorage, contents := [], 0, map[];
    }

    // find_storage
    method FindStorage(id: Id) returns (k: nat)
      ensures k <= |storage| && (k < |storage| ==> storage[k].id == id)
      ensures k < |storage| <==> id in Hashes(storage)
    {
      hide IdCmp;
      k := 0;
      while k < |storage| && IdCmp(id, storage[k].id) != 0
        invariant k <= |storage|
        invariant forall j: nat | j < k :: storage[j].id != id
      {
        IdCmpIsNumericOrder(id, storage[k].id);
        k := k + 1;
      }
      if k < |storage| {
        IdCmpIsNumericOrder(id, storage[k].id);
        assert storage[k] in storage;
      }
    }

    // storage_store for a hash that has an entry
    method UpdateHash(k: nat, key: Key, now: int) returns (rc: int)
      requires Valid() && k < |storage|
      modifies this`contents, storage[k], storage[k].peers
      ensures Valid()
      ensures StoreResult(contents, rc) == Stored(old(contents), storage[k].id, key, now)
    {
      hide EntryOk, Hashes, Storage.Valid, Storage.Times;
      var st := storage[k];
      EntryIs(st, contents);
      ghost var m := contents[st.id];
      SizeOfTimes(st);
      forall j: nat | j < |storage| && j != k ensures storage[j] != st && storage[j].peers != st.peers {
        SeparateAt(storage, j, k);
      }
      ghost var c := contents;
      rc := st.Store(key, now);
      contents := contents[st.id := st.Times()];
      assert st.numpeers > 0;
      UpdateEntry(storage, k, c, st.Times());
    }

    // storage_store for a new hash
    method AddHash(id: Id, key: Key, now: int) returns (rc: int)
      requires Valid() && id !in Hashes(storage) && |storage| < MAX_HASHES
      modifies this
      ensures Valid()
      ensures StoreResult(contents, rc) == StoreResult(old(contents)[id := map[key := now]], 1)
    {
      hide EntryOk, Hashes, Storage.Valid, Storage.Times;
      var st := new Storage(id);
      rc := st.Store(key, now);
      AddEntry(storage, st, contents);
      storage := [st] + storage;
      numstorage := numstorage + 1;
      contents := contents[id := st.Times()];
    }

    // storage_store
    method StorePeer(id: Id, key: Key, now: int) returns (rc: int)
      requires Valid()
      modifies this, storage, set st | st in storage :: st.peers
      ensures Valid()
      ensures StoreResult(contents, rc) == Stored(old(contents), id, key, now)
      ensures rc == (if id !in old(contents) && |old(contents)| >= 16384 then -1
        else if Knows(old(contents), id, key) || (id in old(contents) && |old(contents)[id]| >= 2048) then 0 else 1)
    {
      hide TimesOf, EntryOk, Storage.Valid, Storage.Times;
      assert |contents| == |contents.Keys|;
      HashesCount(storage);
      var k := FindStorage(id);
      if k == |storage| {
        if numstorage >= MAX_HASHES {
          return -1;
        }
        rc := AddHash(id, key, now);
      } else {
        rc := UpdateHash(k, key, now);
      }
    }

    // One turn of the loop of expire_storage: the entry loses its expired peers,
    // and goes if none is left.
    method ExpireEntry(k: nat, now: int) returns (gone: bool)
      requires Valid() && k < |storage|
      modifies this, storage[k], storage[k].peers
      ensures Valid() && old(storage)[k].peers == old(storage[k].peers)
      ensures var id, m := old(storage)[k].id, Fresh(old(contents)[old(storage)[k].id], now);
        && (gone <==> m == map[])
        && contents == (if gone then old(contents) - {id} else old(contents)[id := m])
        && storage == (if gone then old(storage)[..k] + old(storage)[k + 1..] else old(storage))
    {
      hide EntryOk, Hashes, Separate, Storage.Valid, Storage.Times, Fresh;
      var st := storage[k];
      ghost var c := contents;
      ExpirePeers(k, now);
      SizeOfTimes(st);
      if st.numpeers == 0 {
        RemoveEntry(storage, k, c);
        storage := storage[..k] + storage[k + 1..];
        numstorage := numstorage - 1;
        contents := c - {st.id};
        gone := true;
      } else {
        UpdateEntry(storage, k, c, st.Times());
        contents := c[st.id := st.Times()];
        gone := false;
      }
    }

    // The peers of one entry expire; the others are untouched.
    method ExpirePeers(k: nat, now: int)
      requires Valid() && k < |storage|
      modifies storage[k], storage[k].peers
      ensures Separate(storage) && storage[k].Valid() && storage[k].peers == old(storage[k].peers)
      ensures storage[k].id in contents && storage[k].Times() == Fresh(contents[storage[k].id], now)
      ensures contents.Keys == Hashes(storage)
      ensures forall j: nat | j < |storage| && j != k :: EntryOk(storage[j], contents)
    {
      hide EntryOk, Hashes, Separate, SeparateArrays, Storage.Valid, Storage.Times, Fresh;
      var st := storage[k];
      EntryIs(st, contents);
      forall j: nat | j < |storage| && j != k ensures storage[j] != st && storage[j].peers != st.peers {
        SeparateAt(storage, j, k);
      }
      ghost var arrays := Arrays(storage);
      assert SeparateArrays(storage, arrays) by {
        hide *;
        SeparateIff(storage);
      }
      st.Expire(now);
      assert Arrays(storage) == arrays;
      SeparateIff(storage);
    }

    // expire_storage
    method ExpireStorage(now: int)
      requires Valid()
      modifies this, storage, set st | st in storage :: st.peers
      ensures Valid()
      ensures contents == Expired(old(contents), now)
    {
      hide Entries, Fresh;
      ghost var c := contents;
      ghost var done: set<Id> := {};
      var i := 0;
      while i < |storage|
        invariant i <= |storage| && Valid()
        invariant forall st | st in storage :: st in old(storage) && st.peers == old(st.peers)
        invariant contents == ExpiredIn(c, done, now)
        invariant forall j: nat | j < |storage| :: storage[j].id in done <==> j < i
        decreases |storage| - i
      {
        var id := storage[i].id;
        EntriesDiffer(storage, contents, i);
        ExpireOne(c, done, id, now);
        var gone := ExpireEntry(i, now);
        done := done + {id};
        if !gone {
          i := i + 1;
        }
      }
      AllExpired(storage, contents, c, done, now);
    }
  }

  // Some of the hashes have been through the loop of expire_storage.
  ghost function ExpiredIn(c: Contents, done: set<Id>, now: int): Contents
  {
    map id | id in c && (id in done ==> Fresh(c[id], now) != map[]) ::
      if id in done then Fresh(c[id], now) else c[id]
  }

  lemma ExpireOne(c: Contents, done: set<Id>, id: Id, now: int)
    requires id in ExpiredIn(c, done, now) && id !in done
    ensures id in c
    ensures var e, m := ExpiredIn(c, done, now), Fresh(c[id], now);
      e[id] == c[id] && ExpiredIn(c, done + {id}, now) == if m == map[] then e - {id} else e[id := m]
  {
    hide Fresh;
  }

  lemma EntriesDiffer(ss: seq<Storage>, c: Contents, i: nat)
    requires Entries(ss, c) && i < |ss|
    ensures ss[i].id in c && forall j: nat | j < |ss| && j != i :: ss[j].id != ss[i].id
    ensures forall j: nat | j < |ss| && j != i :: ss[j] != ss[i] && ss[j].peers != ss[i].peers
  {
    assert ss[i] in ss;
    hide EntryOk;
  }

  lemma AllExpired(ss: seq<Storage>, contents: Contents, c: Contents, done: set<Id>, now: int)
    requires Entries(ss, contents) && contents == ExpiredIn(c, done, now)
    requires forall j: nat | j < |ss| :: ss[j].id in done
    ensures contents == Expired(c, now)
  {
    hide Fresh, EntryOk;
    forall id | id in contents ensures id in done {
      assert id in Hashes(ss);
      var st :| st in ss && st.id == id;
    }
    assert forall id | id in c && id !in done :: id in ExpiredIn(c, done, now);
  }

  // Every hash has one entry.
  lemma {:induction false} HashesCount(ss: seq<Storage>)
    requires forall i: nat, j: nat | i < j < |ss| :: ss[i].id != ss[j].id
    ensures |Hashes(ss)| == |ss|
  {
    if ss != [] {
      var n := |ss| - 1;
      HashesCount(ss[..n]);
      assert ss == ss[..n] + [ss[n]];
      assert Hashes(ss) == Hashes(ss[..n]) + {ss[n].id};
      assert ss[n].id !in Hashes(ss[..n]);
    }
  }

  function Hashes(ss: seq<Storage>): set<Id>
  {
    set st | st in ss :: st.id
  }

  // No two entries are for the same hash, and no two share an array.
  ghost predicate Separate(ss: seq<Storage>)
    reads ss
  {
    forall i: nat, j: nat | i < j < |ss| :: ss[i].id != ss[j].id && ss[i].peers != ss[j].peers
  }

  ghost function Arrays(ss: seq<Storage>): (r: seq<array<Peer>>)
    reads ss
    ensures |r| == |ss| && forall i: nat | i < |ss| :: r[i] == ss[i].peers
  {
    if ss == [] then [] else Arrays(ss[..|ss| - 1]) + [ss[|ss| - 1].peers]
  }

  ghost predicate SeparateArrays(ss: seq<Storage>, arrays: seq<array<Peer>>)
    requires |arrays| == |ss|
  {
    forall i: nat, j: nat | i < j < |ss| :: ss[i].id != ss[j].id && arrays[i] != arrays[j]
  }

  lemma SeparateIff(ss: seq<Storage>)
    ensures Separate(ss) <==> SeparateArrays(ss, Arrays(ss))
  {}

  ghost predicate EntryOk(st: Storage, c: Contents)
    reads st, st.peers
  {
    st.Valid() && st.numpeers > 0 && st.id in c && c[st.id] == st.Times()
  }

  // The list of entries stands for the map c.
  ghost predicate Entries(ss: seq<Storage>, c: Contents)
    reads ss, set st | st in ss :: st.peers
  {
    Separate(ss) && c.Keys == Hashes(ss) && forall st | st in ss :: EntryOk(st, c)
  }

  lemma EntryIs(st: Storage, c: Contents)
    requires EntryOk(st, c)
    ensures st.Valid() && st.numpeers > 0 && st.id in c && c[st.id] == st.Times()
  {}

  lemma SizeOfTimes(st: Storage)
    requires st.Valid()
    ensures |st.Times()| == st.numpeers
  {
    TimesOfMembers(st.peers[..st.numpeers]);
  }

  lemma SeparateAt(ss: seq<Storage>, j: nat, k: nat)
    requires Separate(ss) && j < |ss| && k < |ss| && j != k
    ensures ss[j].id != ss[k].id && ss[j] != ss[k] && ss[j].peers != ss[k].peers
  {}

  lemma AddEntry(ss: seq<Storage>, st: Storage, c: Contents)
    requires Entries(ss, c) && st.Valid() && st.numpeers > 0 && st.id !in Hashes(ss)
    requires forall s | s in ss :: s.peers != st.peers
    ensures Entries([st] + ss, c[st.id := st.Times()])
  {
    hide Storage.Valid, Storage.Times;
    var c' := c[st.id := st.Times()];
    assert Hashes([st] + ss) == Hashes(ss) + {st.id};
    forall s | s in [st] + ss ensures EntryOk(s, c') {
      if s in ss {
        assert EntryOk(s, c) && s.id in Hashes(ss);
      }
    }
    assert forall i: nat | i < |ss| :: ss[i] in ss && ss[i].id in Hashes(ss);
  }

  lemma RemoveEntry(ss: seq<Storage>, k: nat, c: Contents)
    requires Separate(ss) && k < |ss| && c.Keys == Hashes(ss)
    requires forall j: nat | j < |ss| && j != k :: EntryOk(ss[j], c)
    ensures Entries(ss[..k] + ss[k + 1..], c - {ss[k].id})
  {
    hide EntryOk, Hashes, Separate;
    var rest, c' := ss[..k] + ss[k + 1..], c - {ss[k].id};
    RestSeparate(ss, k);
    RestHashes(ss, k);
    forall st | st in rest ensures EntryOk(st, c') {
      var j: nat :| j < |rest| && rest[j] == st;
      var i := if j < k then j else j + 1;
      SeparateAt(ss, i, k);
      EntryOfLess(ss[i], c, ss[k].id);
    }
  }

  lemma EntryOfLess(st: Storage, c: Contents, id: Id)
    requires EntryOk(st, c) && st.id != id
    ensures EntryOk(st, c - {id})
  {
    hide Storage.Valid, Storage.Times;
  }

  lemma RestSeparate(ss: seq<Storage>, k: nat)
    requires Separate(ss) && k < |ss|
    ensures Separate(ss[..k] + ss[k + 1..])
  {}

  lemma RestHashes(ss: seq<Storage>, k: nat)
    requires Separate(ss) && k < |ss|
    ensures Hashes(ss[..k] + ss[k + 1..]) == Hashes(ss) - {ss[k].id}
  {
    var rest := ss[..k] + ss[k + 1..];
    forall id ensures id in Hashes(rest) <==> id in Hashes(ss) && id != ss[k].id {
      if id in Hashes(ss) && id != ss[k].id {
        var st :| st in ss && st.id == id;
        var j: nat :| j < |ss| && ss[j] == st;
        assert rest[if j < k then j else j - 1] == st;
      }
      if id in Hashes(rest) {
        var st :| st in rest && st.id == id;
        var j: nat :| j < |rest| && rest[j] == st;
        SeparateAt(ss, if j < k then j else j + 1, k);
        assert st in ss;
      }
    }
  }

  lemma UpdateEntry(ss: seq<Storage>, k: nat, c: Contents, m: Times)
    requires Separate(ss) && k < |ss| && c.Keys == Hashes(ss)
    requires ss[k].Valid() && ss[k].numpeers > 0 && ss[k].Times() == m
    requires forall j: nat | j < |ss| && j != k :: EntryOk(ss[j], c)
    ensures Entries(ss, c[ss[k].id := m])
  {
    hide Storage.Valid, Storage.Times;
    assert ss[k] in ss;
    forall st | st in ss ensures EntryOk(st, c[ss[k].id := m]) {
      var j: nat :| j < |ss| && ss[j] == st;
      if j != k {
        SeparateAt(ss, j, k);
      }
    }
  }

  // ----- whole runs -----

  datatype Op = Announced(id: Id, key: Key, now: int) | Expiry(now: int)

  function Apply(c: Contents, op: Op): Contents
  {
    match op
    case Announced(id, key, now) => Stored(c, id, key, now).contents
    case Expiry(now) => Expired(c, now)
  }

  function Run(ops: seq<Op>): Contents
  {
    if ops == [] then map[] else Apply(Run(ops[..|ops| - 1]), ops[|ops| - 1])
  }

  ghost predicate Bounded(c: Contents)
  {
    |c| <= MAX_HASHES && forall id | id in c :: 0 < |c[id]| <= MAX_PEERS
  }

  predicate Knows(c: Contents, id: Id, key: Key)
  {
    id in c && key in c[id]
  }

  // The time of the last announcement of a peer for a hash
  function LastAnnounced(ops: seq<Op>, id: Id, key: Key): Option<int>
  {
    if ops == [] then None
    else match ops[|ops| - 1]
      case Announced(i, k, now) => if i == id && k == key then Some(now) else LastAnnounced(ops[..|ops| - 1], id, key)
      case Expiry(_) => LastAnnounced(ops[..|ops| - 1], id, key)
  }

  predicate AnnouncedSince(ops: seq<Op>, id: Id, key: Key, since: int)
  {
    LastAnnounced(ops, id, key).Some? && LastAnnounced(ops, id, key).value >= since
  }

  lemma ApplyKeepsBounds(c: Contents, op: Op)
    requires Bounded(c)
    ensures Bounded(Apply(c, op))
  {
    hide Stored, Expired, Bounded;
    match op
    case Announced(id, key, now) => StoredKeepsBounds(c, id, key, now);
    case Expiry(now) => ExpiredKeepsBounds(c, now);
  }

  lemma StoredKeepsBounds(c: Contents, id: Id, key: Key, now: int)
    requires Bounded(c)
    ensures Bounded(Stored(c, id, key, now).contents)
  {
    var m: Times := if id in c then c[id] else map[];
    PutSize(c, id, m[key := now]);
    PutSize(m, key, now);
  }

  lemma PutSize<K, V>(m: map<K, V>, k: K, v: V)
    ensures |m[k := v]| == if k in m then |m| else |m| + 1
  {
    assert m[k := v].Keys == m.Keys + {k};
    assert |m[k := v]| == |m[k := v].Keys| && |m| == |m.Keys|;
  }

  lemma ExpiredKeepsBounds(c: Contents, now: int)
    requires Bounded(c)
    ensures Bounded(Expired(c, now))
  {
    hide Fresh;
    var c' := Expired(c, now);
    SmallerMap(c, c');
    forall id | id in c' ensures 0 < |c'[id]| <= MAX_PEERS {
      FreshIsSmaller(c[id], now);
    }
  }

  lemma SmallerMap<V, W>(c: map<Id, V>, d: map<Id, W>)
    requires d.Keys <= c.Keys
    ensures |d| <= |c|
  {
    assert c.Keys == d.Keys + (c.Keys - d.Keys);
    assert |c.Keys| == |c| && |d.Keys| == |d|;
  }

  lemma FreshIsSmaller(m: Times, now: int)
    ensures |Fresh(m, now)| <= |m|
    ensures Fresh(m, now) != map[] ==> |Fresh(m, now)| > 0
  {
    var f := Fresh(m, now);
    assert m.Keys == f.Keys + (m.Keys - f.Keys);
    assert |m.Keys| == |m| && |f.Keys| == |f|;
  }

  // In every run the limits hold, no hash is kept without a peer, and every peer is
  // kept with the time it was last announced.
  lemma {:induction false} RunKeepsLastAnnouncement(ops: seq<Op>, id: Id, key: Key)
    ensures Bounded(Run(ops))
    ensures Knows(Run(ops), id, key) ==> LastAnnounced(ops, id, key) == Some(Run(ops)[id][key])
  {
    if ops != [] {
      var n := |ops| - 1;
      RunKeepsLastAnnouncement(ops[..n], id, key);
      ApplyKeepsBounds(Run(ops[..n]), ops[n]);
      hide Bounded;
    }
  }

  lemma StaysOneStep(c: Contents, op: Op, id: Id, key: Key, since: int)
    requires Knows(c, id, key) && c[id][key] >= since && since <= op.now <= since + 32 * 60
    ensures Knows(Apply(c, op), id, key) && Apply(c, op)[id][key] >= since
  {}

  // A peer that was let in is served for 32 minutes after its last announcement,
  // whatever else is announced or expires meanwhile.
  lemma {:induction false} AnnouncedPeerStays(before: seq<Op>, after: seq<Op>, id: Id, key: Key, since: int)
    requires Knows(Run(before), id, key) && Run(before)[id][key] >= since
    requires forall op | op in after :: since <= op.now <= since + 32 * 60
    ensures Knows(Run(before + after), id, key) && Run(before + after)[id][key] >= since
  {
    hide Apply;
    if after == [] {
      assert before + after == before;
    } else {
      var n := |after| - 1;
      AnnouncedPeerStays(before, after[..n], id, key, since);
      assert (before + after)[..|before| + n] == before + after[..n];
      StaysOneStep(Run(before + after[..n]), after[n], id, key, since);
    }
  }

  // Right after an expiry exactly those peers are left that were known and announced for
  // the hash within the last 32 minutes.
  lemma ExpiryIsThorough(ops: seq<Op>, now: int, id: Id, key: Key)
    ensures Knows(Run(ops + [Expiry(now)]), id, key)
       <==> Knows(Run(ops), id, key) && AnnouncedSince(ops, id, key, now - 32 * 60)
  {
    hide LastAnnounced, Run, Bounded;
    RunOneMore(ops, Expiry(now));
    RunKeepsLastAnnouncement(ops, id, key);
    ExpiredKnows(Run(ops), now, id, key);
  }

  lemma ExpiredKnows(c: Contents, now: int, id: Id, key: Key)
    ensures Knows(Expired(c, now), id, key) <==> Knows(c, id, key) && c[id][key] >= now - LIFETIME
  {
    if Knows(c, id, key) {
      assert key in Fresh(c[id], now) <==> c[id][key] >= now - LIFETIME;
    }
  }

  lemma RunOneMore(ops: seq<Op>, op: Op)
    ensures Run(ops + [op]) == Apply(Run(ops), op)
  {
    assert (ops + [op])[..|ops|] == ops;
  }

  // ----- who gets in -----

  // The limits: 16384 hashes, and 2048 peers for one hash
  predicate Admitted(c: Contents, id: Id, key: Key)
  {
    Knows(c, id, key) || (if id in c then |c[id]| < 2048 else |c| < 16384)
  }

  // An announcement makes the peer known for the hash with the time it was made, unless the
  // hash is new and there is no room for it, or the peer is and its hash has none; and it
  // changes no other peer.
  lemma AnnouncedIsKnown(ops: seq<Op>, id: Id, key: Key, now: int, other: Id, peer: Key)
    ensures
      var before, after := Run(ops), Run(ops + [Announced(id, key, now)]);
      && (Knows(after, id, key) <==> Admitted(before, id, key))
      && (Knows(after, id, key) ==> after[id][key] == now)
      && (!Admitted(before, id, key) ==> after == before)
      && (other != id || peer != key ==>
            (Knows(after, other, peer) <==> Knows(before, other, peer))
            && (Knows(after, other, peer) ==> after[other][peer] == before[other][peer]))
  {
    hide Run;
    RunOneMore(ops, Announced(id, key, now));
  }

  // What storage_store tells its caller
  lemma StoreCode(c: Contents, id: Id, key: Key, now: int)
    ensures Stored(c, id, key, now).rc ==
      if id !in c && |c| >= 16384 then -1
      else if Knows(c, id, key) || (id in c && |c[id]| >= 2048) then 0
      else 1
  {}

  // So a peer that is admitted is known for the next 32 minutes, whatever happens then.
  lemma AdmittedPeerStays(ops: seq<Op>, id: Id, key: Key, now: int, after: seq<Op>)
    requires Admitted(Run(ops), id, key)
    requires forall op | op in after :: now <= op.now <= now + 32 * 60
    ensures Knows(Run(ops + [Announced(id, key, now)] + after), id, key)
    ensures Run(ops + [Announced(id, key, now)] + after)[id][key] >= now
  {
    hide Run, Admitted;
    AnnouncedIsKnown(ops, id, key, now, id, key);
    AnnouncedPeerStays(ops + [Announced(id, key, now)], after, id, key, now);
  }

  // The first peer of an empty store, for one
  lemma FirstPeerIsAdmitted(id: Id, key: Key)
    ensures Admitted(Run([]), id, key)
  {}
}
