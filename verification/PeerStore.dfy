/** Saving a peer manager and loading it again.  Ids are renumbered: new peers first, then the tried ones. */
module PeerStore {
  import opened Primitives
  import opened PeerTables
  import opened PeerManager

  /** The part of a peer that is saved. */
  datatype Saved = Saved(address: Address, source: NetAddr, lastSuccess: int, attempts: int)

  function Save(p: Peer): Saved {
    Saved(p.address, p.source, p.lastSuccess, p.attempts)
  }

  function Load(s: Saved, position: int, inTried: bool): Peer {
    Peer(s.address, s.source, s.lastSuccess, 0, s.attempts, 0, inTried, position)
  }

  /** The saved form: counters, peers, and for each new bucket the numbers of its members. */
  datatype Archive = Archive(nNew: int, nTried: int, newPeers: seq<Saved>, triedPeers: seq<Saved>,
                             buckets: seq<seq<int>>)

  // ---------- Numbering ----------

  /** order lists the ids of a set, each once. */
  ghost predicate Lists(order: seq<int>, ids: set<int>) {
    Distinct(order) && (forall id :: id in order ==> id in ids) && (forall id :: id in ids ==> id in order)
  }

  lemma ListsCard(order: seq<int>, ids: set<int>)
    requires Lists(order, ids)
    ensures |order| == |ids|
  {
    DistinctCard(order);
    forall id | id in ids
      ensures id in Members(order)
    {
    }
    forall id | id in Members(order)
      ensures id in ids
    {
    }
    assert Members(order) == ids;
  }

  /** The saved peers are those listed, in that order. */
  ghost predicate SavedAs(peers: Peers, order: seq<int>, saved: seq<Saved>) {
    |order| == |saved| && forall i :: 0 <= i < |order| ==> order[i] in peers && saved[i] == Save(peers[order[i]])
  }

  /** numbers are the places, in the order, of the members of a bucket. */
  ghost predicate NumbersOf(order: seq<int>, bucket: set<int>, numbers: seq<int>) {
    && Distinct(numbers)
    && (forall i :: i in numbers ==> 0 <= i < |order| && order[i] in bucket)
    && (forall i :: 0 <= i < |order| && order[i] in bucket ==> i in numbers)
  }

  /** The archive describes the peers, numbered by the two orders. */
  ghost predicate Describes(a: Archive, peers: Peers, news: seq<set<int>>, newOrder: seq<int>, triedOrder: seq<int>) {
    && Lists(newOrder, NewIds(peers)) && Lists(triedOrder, TriedIds(peers))
    && a.nNew == |newOrder| && a.nTried == |triedOrder|
    && SavedAs(peers, newOrder, a.newPeers) && SavedAs(peers, triedOrder, a.triedPeers)
    && |a.buckets| == |news|
    && forall b :: 0 <= b < |news| ==> NumbersOf(newOrder, news[b], a.buckets[b])
  }

  // ---------- Writing ----------

  /** All ids of a set below n, in ascending order, as a map of ids is walked through. */
  method Ascending(ids: set<int>, n: int) returns (order: seq<int>)
    requires forall id :: id in ids ==> 0 <= id < n
    ensures Lists(order, ids)
    ensures forall i, j :: 0 <= i < j < |order| ==> order[i] < order[j]
  {
    order := [];
    var id := 0;
    while id < n
      invariant n >= 0 ==> 0 <= id <= n
      invariant forall i :: 0 <= i < |order| ==> 0 <= order[i] < id && order[i] in ids
      invariant forall i, j :: 0 <= i < j < |order| ==> order[i] < order[j]
      invariant forall k :: k in ids && k < id ==> k in order
    {
      if id in ids {
        order := order + [id];
      }
      id := id + 1;
    }
  }

  /** Walk through the peers and save the new ones; number maps their ids to their places.  The walk ends early when
      as many as the counter says were found, which is when there are no more. */
  method SaveNew(peers: Peers, walk: seq<int>, nNew: int)
    returns (saved: seq<Saved>, number: map<int, int>, ghost order: seq<int>)
    requires Lists(walk, peers.Keys) && nNew == |NewIds(peers)|
    requires forall id :: id in peers ==> (peers[id].refCount != 0 <==> !peers[id].inTried)
    ensures Lists(order, NewIds(peers)) && SavedAs(peers, order, saved) && |saved| == nNew
    ensures forall i :: 0 <= i < |order| ==> order[i] in number && number[order[i]] == i
  {
    saved, number, order := [], map[], [];
    var k := 0;
    while k < |walk| && |saved| != nNew
      invariant 0 <= k <= |walk|
      invariant SavedAs(peers, order, saved) && Distinct(order)
      invariant forall id :: id in order ==> id in NewIds(peers) && id in walk[..k]
      invariant forall id :: id in walk[..k] && id in NewIds(peers) ==> id in order
      invariant forall i :: 0 <= i < |order| ==> order[i] in number && number[order[i]] == i
    {
      var id := walk[k];
      assert id in peers && id !in walk[..k];
      assert walk[..k + 1] == walk[..k] + [id];
      number := number[id := |saved|];
      if peers[id].refCount != 0 {
        saved := saved + [Save(peers[id])];
        order := order + [id];
      }
      k := k + 1;
    }
    WalkIsComplete(order, NewIds(peers), walk, k);
  }

  /** An early end misses nothing. */
  lemma WalkIsComplete(order: seq<int>, ids: set<int>, walk: seq<int>, k: nat)
    requires Distinct(order) && forall id :: id in order ==> id in ids
    requires k <= |walk| && forall id :: id in walk[..k] && id in ids ==> id in order
    requires forall id :: id in ids ==> id in walk
    requires k == |walk| || |order| == |ids|
    ensures Lists(order, ids) && |order| == |ids|
  {
    DistinctCard(order);
    if k == |walk| {
      assert walk[..k] == walk;
      ListsCard(order, ids);
    } else {
      SubsetCard(Members(order), ids);
    }
  }

  method SaveTried(peers: Peers, walk: seq<int>, nTried: int) returns (saved: seq<Saved>, ghost order: seq<int>)
    requires Lists(walk, peers.Keys) && nTried == |TriedIds(peers)|
    ensures Lists(order, TriedIds(peers)) && SavedAs(peers, order, saved) && |saved| == nTried
  {
    saved, order := [], [];
    var k := 0;
    while k < |walk| && |saved| != nTried
      invariant 0 <= k <= |walk|
      invariant SavedAs(peers, order, saved) && Distinct(order)
      invariant forall id :: id in order ==> id in TriedIds(peers) && id in walk[..k]
      invariant forall id :: id in walk[..k] && id in TriedIds(peers) ==> id in order
    {
      var id := walk[k];
      assert id in peers && id !in walk[..k];
      assert walk[..k + 1] == walk[..k] + [id];
      if peers[id].inTried {
        saved := saved + [Save(peers[id])];
        order := order + [id];
      }
      k := k + 1;
    }
    WalkIsComplete(order, TriedIds(peers), walk, k);
  }

  /** The numbers of the members of a bucket. */
  method SaveBucket(members: seq<int>, ghost bucket: set<int>, number: map<int, int>, ghost order: seq<int>)
    returns (numbers: seq<int>)
    requires Lists(members, bucket) && Distinct(order) && forall id :: id in bucket ==> id in order
    requires forall i :: 0 <= i < |order| ==> order[i] in number && number[order[i]] == i
    ensures NumbersOf(order, bucket, numbers)
  {
    numbers := [];
    for k := 0 to |members|
      invariant |numbers| == k
      invariant forall j :: 0 <= j < k ==> 0 <= numbers[j] < |order| && order[numbers[j]] == members[j]
    {
      var id := members[k];
      assert id in members && id in bucket && id in order;
      numbers := numbers + [number[members[k]]];
    }
    forall i | 0 <= i < |order| && order[i] in bucket
      ensures i in numbers
    {
      var k :| 0 <= k < |members| && members[k] == order[i];
      assert numbers[k] == i;
    }
  }

  /** Serialization of the manager. */
  method Write(m: Manager) returns (a: Archive)
    requires m.Valid()
    ensures exists newOrder, triedOrder :: Describes(a, m.peers, m.news, newOrder, triedOrder)
  {
    ghost var newOrder, triedOrder;
    var walk := Ascending(m.peers.Keys, m.idCount);
    RefsTellStatus(m.peers, m.news);
    var newPeers, number, triedPeers;
    newPeers, number, newOrder := SaveNew(m.peers, walk, m.nNew);
    triedPeers, triedOrder := SaveTried(m.peers, walk, m.nTried);
    ListsCard(newOrder, NewIds(m.peers));
    ListsCard(triedOrder, TriedIds(m.peers));
    var buckets: seq<seq<int>> := [];
    for b := 0 to |m.news|
      invariant |buckets| == b
      invariant forall c :: 0 <= c < b ==> NumbersOf(newOrder, m.news[c], buckets[c])
    {
      assert MembersAreNew(m.peers, m.news[b]);
      var members := Ascending(m.news[b], m.idCount);
      var numbers := SaveBucket(members, m.news[b], number, newOrder);
      buckets := buckets + [numbers];
    }
    a := Archive(m.nNew, m.nTried, newPeers, triedPeers, buckets);
    assert Describes(a, m.peers, m.news, newOrder, triedOrder);
  }

  lemma RefsTellStatus(peers: Peers, news: seq<set<int>>)
    requires NewsOk(peers, news, None)
    ensures forall id :: id in peers ==> (peers[id].refCount != 0 <==> !peers[id].inTried)
  {
    forall id | id in peers
      ensures peers[id].refCount != 0 <==> !peers[id].inTried
    {
      assert RefsOk(peers[id], news, id, None);
    }
  }

  // ---------- What loading must reproduce ----------

  /** order numbers all peers, the first n of them new and the others tried. */
  ghost predicate Numbering(peers: Peers, order: seq<int>, n: nat) {
    && Distinct(order) && n <= |order|
    && (forall i :: 0 <= i < |order| ==> order[i] in peers && (peers[order[i]].inTried <==> i >= n))
    && (forall id :: id in peers ==> id in order)
  }

  lemma NumberedByArchive(a: Archive, peers: Peers, news: seq<set<int>>, newOrder: seq<int>, triedOrder: seq<int>)
    requires Describes(a, peers, news, newOrder, triedOrder)
    ensures Numbering(peers, newOrder + triedOrder, |newOrder|)
    ensures SavedAs(peers, newOrder + triedOrder, a.newPeers + a.triedPeers)
  {
    var order := newOrder + triedOrder;
    hide SavedAs;
    SavedTogether(peers, newOrder, a.newPeers, triedOrder, a.triedPeers);
    forall i | 0 <= i < |order|
      ensures order[i] in peers && (peers[order[i]].inTried <==> i >= |newOrder|)
    {
      if i < |newOrder| {
        var id := newOrder[i];
        assert id in newOrder && id in NewIds(peers);
      } else {
        var id := triedOrder[i - |newOrder|];
        assert id in triedOrder && id in TriedIds(peers);
      }
    }
    forall i, j | 0 <= i < j < |order|
      ensures order[i] != order[j]
    {
      assert i < |newOrder| <= j ==> peers[order[i]].inTried != peers[order[j]].inTried;
    }
    forall id | id in peers
      ensures id in order
    {
      assert id in (if peers[id].inTried then TriedIds(peers) else NewIds(peers));
    }
  }

  lemma SavedTogether(peers: Peers, a: seq<int>, sa: seq<Saved>, b: seq<int>, sb: seq<Saved>)
    requires SavedAs(peers, a, sa) && SavedAs(peers, b, sb)
    ensures SavedAs(peers, a + b, sa + sb)
  {
  }

  /** Everything but the buckets is loaded for the first count peers. */
  ghost predicate Loaded(from: Peers, order: seq<int>, count: nat, peers: Peers, random: seq<int>,
                         addrs: map<NetAddr, int>)
  {
    && count == |random| <= |order|
    && (forall i :: 0 <= i < count ==> random[i] == i)
    && (forall i :: i in peers <==> 0 <= i < count)
    && (forall i :: i in peers ==> order[i] in from && LoadedAs(from[order[i]], peers[i], i))
    && AddrsOk(peers, addrs)
  }

  ghost predicate LoadedAs(p: Peer, q: Peer, i: int) {
    Save(q) == Save(p) && q.randomPos == i && q.inTried == p.inTried
  }

  /** One more peer is loaded. */
  lemma LoadKeeps(from: Peers, index: map<NetAddr, int>, order: seq<int>, n: nat, count: nat, p: Peer,
                  peers: Peers, random: seq<int>, addrs: map<NetAddr, int>)
    requires Numbering(from, order, n) && AddrsOk(from, index) && count < |order|
    requires Loaded(from, order, count, peers, random, addrs) && LoadedAs(from[order[count]], p, count)
    ensures Loaded(from, order, count + 1, peers[count := p], random + [count], addrs[p.Net() := count])
  {
    forall i | i in peers
      ensures peers[i].Net() != p.Net()
    {
      ApartByAddress(from, index, order, n, i, count, peers[i], p);
    }
    hide Numbering;
    AddressAdded(peers, count, p, addrs);
    hide AddrsOk;
  }

  /** Peers with different numbers have different addresses. */
  lemma ApartByAddress(from: Peers, index: map<NetAddr, int>, order: seq<int>, n: nat, i: nat, j: nat, p: Peer, q: Peer)
    requires Numbering(from, order, n) && AddrsOk(from, index) && i < |order| && j < |order| && i != j
    requires LoadedAs(from[order[i]], p, i) && LoadedAs(from[order[j]], q, j)
    ensures p.Net() != q.Net()
  {
    var a, b := order[i], order[j];
    assert a != b && from[a].Net() in index && from[b].Net() in index;
    assert index[from[a].Net()] == a && index[from[b].Net()] == b;
  }

  lemma AddressAdded(peers: Peers, id: int, p: Peer, addrs: map<NetAddr, int>)
    requires AddrsOk(peers, addrs) && id !in peers && forall i :: i in peers ==> peers[i].Net() != p.Net()
    ensures AddrsOk(peers[id := p], addrs[p.Net() := id])
  {
  }

  lemma FitsIn(s: seq<int>, t: set<int>)
    requires Distinct(s) && forall x :: x in s ==> x in t
    ensures |s| <= |t|
  {
    DistinctCard(s);
    forall x | x in Members(s)
      ensures x in t
    {
    }
    SubsetCard(Members(s), t);
  }

  /** Renaming numbers back to ids keeps them apart. */
  lemma RenameDistinct(order: seq<int>, numbers: seq<int>) returns (ids: seq<int>)
    requires Distinct(order) && Distinct(numbers) && forall k :: 0 <= k < |numbers| ==> 0 <= numbers[k] < |order|
    ensures Distinct(ids) && |ids| == |numbers| && forall k :: 0 <= k < |numbers| ==> ids[k] == order[numbers[k]]
  {
    ids := seq(|numbers|, k requires 0 <= k < |numbers| => order[numbers[k]]);
  }

  /** No tried peer is lost: its bucket has room, since it had when the archive was written. */
  lemma TriedRoom(from: Peers, tried: seq<seq<int>>, hash: TriedHash, order: seq<int>, n: nat, count: nat,
                  peers: Peers, random: seq<int>, addrs: map<NetAddr, int>, loaded: seq<seq<int>>)
    requires TriedOk(from, tried, hash) && Numbering(from, order, n) && n <= count < |order|
    requires Loaded(from, order, count, peers, random, addrs) && TriedOk(peers, loaded, hash)
    ensures |loaded[TriedBucket(hash, from[order[count]])]| < TRIED_BUCKET_SIZE
  {
    var b := TriedBucket(hash, from[order[count]]);
    var numbers := loaded[b] + [count];
    assert TriedBucketOk(peers, loaded[b], b, hash) && TriedBucketOk(from, tried[b], b, hash);
    assert count !in loaded[b] && forall k :: 0 <= k < |loaded[b]| ==> loaded[b][k] in loaded[b];
    var ids := RenameDistinct(order, numbers);
    forall id | id in ids
      ensures id in Members(tried[b])
    {
      var k :| 0 <= k < |ids| && ids[k] == id;
      var i := numbers[k];
      if i != count {
        assert i in loaded[b] && LoadedAs(from[order[i]], peers[i], i);
      }
      assert from[id].inTried && TriedBucket(hash, from[id]) == b;
    }
    FitsIn(ids, Members(tried[b]));
    DistinctCard(tried[b]);
  }

  lemma LoadTriedKeeps(peers: Peers, id: int, p: Peer, tried: seq<seq<int>>, hash: TriedHash)
    requires TriedOk(peers, tried, hash) && id !in peers && p.inTried
    requires |tried[TriedBucket(hash, p)]| < TRIED_BUCKET_SIZE
    ensures var b := TriedBucket(hash, p);
            TriedOk(peers[id := p], tried[b := tried[b] + [id]], hash)
  {
    var b := TriedBucket(hash, p);
    var after, result := peers[id := p], tried[b := tried[b] + [id]];
    forall c: nat | c < |result|
      ensures TriedBucketOk(after, result[c], c, hash)
    {
      assert TriedBucketOk(peers, tried[c], c, hash);
    }
  }

  // ---------- The new buckets ----------

  /** A bucket under the new numbers. */
  ghost function Renamed(order: seq<int>, n: nat, bucket: set<int>): set<int>
    requires n <= |order|
  {
    set i | 0 <= i < n && order[i] in bucket
  }

  ghost predicate Counted(peers: Peers, news: seq<set<int>>) {
    forall i :: i in peers ==> peers[i].refCount == |BucketsOf(news, i)|
  }

  /** Members of bucket b are being loaded; those before it are complete and those after it are empty. */
  ghost predicate Partly(from: seq<set<int>>, order: seq<int>, n: nat, news: seq<set<int>>, b: nat)
    requires n <= |order|
  {
    && |news| == |from|
    && (forall c :: 0 <= c < |news| ==> news[c] <= Renamed(order, n, from[c]))
    && (forall c :: 0 <= c < b && c < |news| ==> news[c] == Renamed(order, n, from[c]))
  }

  /** The limit of four buckets is never hit. */
  lemma BelowLimit(from: Peers, was: seq<set<int>>, order: seq<int>, n: nat, news: seq<set<int>>, b: nat, i: int)
    requires NewsOk(from, was, None) && Numbering(from, order, n) && Partly(was, order, n, news, b)
    requires b < |news| && 0 <= i < n && order[i] in was[b] && i !in news[b]
    ensures |BucketsOf(news, i)| < NEW_BUCKETS_PER_ADDRESS
  {
    var mine, all := BucketsOf(news, i), BucketsOf(was, order[i]);
    assert RefsOk(from[order[i]], was, order[i], None);
    forall c | c in mine
      ensures c in all - {b}
    {
    }
    SubsetCard(mine, all - {b});
  }

  lemma InsertCounted(peers: Peers, i: int, b: nat, news: seq<set<int>>)
    requires Counted(peers, news) && i in peers && b < |news| && i !in news[b]
    ensures Counted(peers[i := peers[i].(refCount := peers[i].refCount + 1)], news[b := news[b] + {i}])
  {
    var after := peers[i := peers[i].(refCount := peers[i].refCount + 1)];
    forall k | k in after
      ensures after[k].refCount == |BucketsOf(news[b := news[b] + {i}], k)|
    {
      BucketsOfInsert(news, b, i, k);
    }
  }

  // ---------- Reading ----------

  ghost predicate Unreferenced(peers: Peers) {
    forall i :: i in peers ==> peers[i].refCount == 0
  }

  /** The peers of an archive written by src, numbered by order. */
  ghost predicate From(src: Manager, order: seq<int>, a: Archive)
    reads src
  {
    && src.Valid()
    && a.nNew == |a.newPeers| && a.nTried == |a.triedPeers|
    && Numbering(src.peers, order, |a.newPeers|)
    && SavedAs(src.peers, order, a.newPeers + a.triedPeers)
  }

  method Clear(m: Manager)
    modifies m`idCount, m`peers, m`addrs, m`random, m`tried, m`news
    ensures m.idCount == 0 && m.peers == map[] && m.addrs == map[] && m.random == []
    ensures TriedOk(m.peers, m.tried, m.triedHash)
    ensures |m.news| == NEW_BUCKET_COUNT && forall b :: 0 <= b < |m.news| ==> m.news[b] == {}
  {
    m.idCount, m.peers, m.addrs, m.random := 0, map[], map[], [];
    m.tried := seq(TRIED_BUCKET_COUNT, _ => []);
    m.news := seq(NEW_BUCKET_COUNT, _ => {});
  }

  method LoadNew(m: Manager, a: Archive, ghost src: Manager, ghost order: seq<int>)
    requires m != src && From(src, order, a)
    requires m.peers == map[] && m.addrs == map[] && m.random == [] && TriedOk(m.peers, m.tried, m.triedHash)
    modifies m`peers, m`addrs, m`random
    ensures Loaded(src.peers, order, |a.newPeers|, m.peers, m.random, m.addrs) && Unreferenced(m.peers)
    ensures TriedOk(m.peers, m.tried, m.triedHash)
  {
    hide RandomOk, AddrsOk, NewsOk, CountsOk, IdsBelow, Numbering, Loaded, SavedAs, TriedOk;
    NothingLoaded(src.peers, order);
    for n := 0 to a.nNew
      invariant Loaded(src.peers, order, n, m.peers, m.random, m.addrs) && Unreferenced(m.peers)
      invariant TriedOk(m.peers, m.tried, m.triedHash)
    {
      var p := Load(a.newPeers[n], |m.random|, false);
      NextSaved(src.peers, order, |a.newPeers|, a.newPeers + a.triedPeers, n, m.peers, m.random, m.addrs);
      LoadKeeps(src.peers, src.addrs, order, |a.newPeers|, n, p, m.peers, m.random, m.addrs);
      TriedByPeers(m.peers, m.peers[n := p], m.tried, m.triedHash);
      m.peers := m.peers[n := p];
      m.addrs := m.addrs[p.Net() := n];
      m.random := m.random + [n];
    }
  }

  lemma NothingLoaded(from: Peers, order: seq<int>)
    ensures Loaded(from, order, 0, map[], [], map[])
  {
  }

  /** The peer saved next, and the number it gets. */
  lemma NextSaved(from: Peers, order: seq<int>, n: nat, saved: seq<Saved>, count: nat,
                  peers: Peers, random: seq<int>, addrs: map<NetAddr, int>)
    requires Numbering(from, order, n) && SavedAs(from, order, saved) && count < |saved|
    requires Loaded(from, order, count, peers, random, addrs)
    ensures count < |order| && |random| == count && count !in peers && order[count] in from
    ensures LoadedAs(from[order[count]], Load(saved[count], count, count >= n), count)
  {
  }

  /** Append a peer to its tried bucket, unless that is full. */
  method Place(m: Manager, p: Peer, b: nat) returns (placed: bool)
    requires b < |m.tried|
    modifies m`peers, m`addrs, m`random, m`tried, m`idCount
    ensures placed <==> |old(m.tried)[b]| < TRIED_BUCKET_SIZE
    ensures placed ==>
              && m.random == old(m.random) + [old(m.idCount)]
              && m.peers == old(m.peers)[old(m.idCount) := p]
              && m.addrs == old(m.addrs)[p.Net() := old(m.idCount)]
              && m.tried == old(m.tried)[b := old(m.tried)[b] + [old(m.idCount)]]
              && m.idCount == old(m.idCount) + 1
    ensures !placed ==> unchanged(m)
  {
    placed := |m.tried[b]| < TRIED_BUCKET_SIZE;
    if placed {
      m.random := m.random + [m.idCount];
      m.peers := m.peers[m.idCount := p];
      m.addrs := m.addrs[p.Net() := m.idCount];
      m.tried := m.tried[b := m.tried[b] + [m.idCount]];
      m.idCount := m.idCount + 1;
    }
  }

  method LoadTried(m: Manager, a: Archive, ghost src: Manager, ghost order: seq<int>)
    requires m != src && From(src, order, a) && m.triedHash == src.triedHash
    requires Loaded(src.peers, order, |a.newPeers|, m.peers, m.random, m.addrs) && Unreferenced(m.peers)
    requires TriedOk(m.peers, m.tried, m.triedHash)
    modifies m`peers, m`addrs, m`random, m`tried, m`idCount, m`nTried
    ensures Loaded(src.peers, order, |order|, m.peers, m.random, m.addrs) && Unreferenced(m.peers)
    ensures TriedOk(m.peers, m.tried, m.triedHash)
    ensures m.idCount == |order| && m.nTried == a.nTried
  {
    hide RandomOk, AddrsOk, NewsOk, CountsOk, IdsBelow, Numbering, Loaded, SavedAs, TriedOk, Unreferenced, Load;
    hide TriedBucket;
    SavedLength(src.peers, order, a.newPeers + a.triedPeers);
    m.idCount := a.nNew;
    var lost := 0;
    for n := 0 to a.nTried
      invariant m.idCount == a.nNew + n && lost == 0
      invariant Loaded(src.peers, order, a.nNew + n, m.peers, m.random, m.addrs) && Unreferenced(m.peers)
      invariant TriedOk(m.peers, m.tried, m.triedHash)
    {
      var p := Load(a.triedPeers[n], |m.random|, true);
      var b := TriedBucket(m.triedHash, p);
      LoadTriedStep(src.peers, src.addrs, src.tried, m.triedHash, order, a, n, m.peers, m.random, m.addrs, m.tried);
      var placed := Place(m, p, b);
      lost := lost + if placed then 0 else 1;
    }
    m.nTried := a.nTried - lost;
  }

  lemma SavedLength(peers: Peers, order: seq<int>, saved: seq<Saved>)
    requires SavedAs(peers, order, saved)
    ensures |order| == |saved|
  {
  }

  lemma LoadTriedStep(from: Peers, index: map<NetAddr, int>, was: seq<seq<int>>, hash: TriedHash, order: seq<int>,
                      a: Archive, n: nat, peers: Peers, random: seq<int>, addrs: map<NetAddr, int>,
                      tried: seq<seq<int>>)
    requires Numbering(from, order, |a.newPeers|) && SavedAs(from, order, a.newPeers + a.triedPeers)
    requires AddrsOk(from, index) && TriedOk(from, was, hash) && n < |a.triedPeers|
    requires Loaded(from, order, |a.newPeers| + n, peers, random, addrs) && TriedOk(peers, tried, hash)
    requires Unreferenced(peers)
    ensures |tried| == TRIED_BUCKET_COUNT && |random| == |a.newPeers| + n
    ensures var count := |a.newPeers| + n;
            var p := Load(a.triedPeers[n], count, true);
            var b := TriedBucket(hash, p);
            && |tried[b]| < TRIED_BUCKET_SIZE
            && Loaded(from, order, count + 1, peers[count := p], random + [count], addrs[p.Net() := count])
            && TriedOk(peers[count := p], tried[b := tried[b] + [count]], hash) && Unreferenced(peers[count := p])
  {
    hide AddrsOk, Numbering, Loaded, SavedAs, TriedOk;
    var count, saved := |a.newPeers| + n, a.newPeers + a.triedPeers;
    assert saved[count] == a.triedPeers[n];
    NextSaved(from, order, |a.newPeers|, saved, count, peers, random, addrs);
    TriedRoom(from, was, hash, order, |a.newPeers|, count, peers, random, addrs, tried);
    var p := Load(a.triedPeers[n], count, true);
    LoadKeeps(from, index, order, |a.newPeers|, count, p, peers, random, addrs);
    TriedShape(peers, tried, hash);
    LoadTriedKeeps(peers, count, p, tried, hash);
  }

  /** Counting a reference changes nothing else. */
  lemma BumpKeeps(from: Peers, order: seq<int>, count: nat, peers: Peers, random: seq<int>, addrs: map<NetAddr, int>,
                  tried: seq<seq<int>>, hash: TriedHash, i: int)
    requires Loaded(from, order, count, peers, random, addrs) && TriedOk(peers, tried, hash) && i in peers
    ensures var after := peers[i := peers[i].(refCount := peers[i].refCount + 1)];
            Loaded(from, order, count, after, random, addrs) && TriedOk(after, tried, hash)
  {
    var after := peers[i := peers[i].(refCount := peers[i].refCount + 1)];
    TriedByPeers(peers, after, tried, hash);
    hide TriedOk;
    forall k | k in after
      ensures order[k] in from && LoadedAs(from[order[k]], after[k], k)
    {
      assert LoadedAs(from[order[k]], peers[k], k);
    }
  }

  /** One member of bucket b is loaded. */
  lemma PartlyKeeps(from: seq<set<int>>, order: seq<int>, n: nat, news: seq<set<int>>, b: nat, i: int)
    requires n <= |order| && Partly(from, order, n, news, b) && b < |news| && 0 <= i < n && order[i] in from[b]
    ensures Partly(from, order, n, news[b := news[b] + {i}], b)
  {
  }

  lemma BucketDone(from: seq<set<int>>, order: seq<int>, n: nat, news: seq<set<int>>, b: nat, numbers: seq<int>)
    requires n <= |order| && Partly(from, order, n, news, b) && b < |news|
    requires news[b] == Members(numbers) && NumbersOf(order[..n], from[b], numbers)
    ensures Partly(from, order, n, news, b + 1)
  {
    forall i | i in Renamed(order, n, from[b])
      ensures i in news[b]
    {
      assert order[..n][i] == order[i];
    }
  }

  method LoadBucket(m: Manager, b: nat, numbers: seq<int>, ghost src: Manager, ghost order: seq<int>, ghost n: nat)
    requires m != src && NewsOk(src.peers, src.news, None) && Numbering(src.peers, order, n)
    requires Partly(src.news, order, n, m.news, b) && b < |m.news| && m.news[b] == {}
    requires NumbersOf(order[..n], src.news[b], numbers) && Counted(m.peers, m.news)
    requires Loaded(src.peers, order, |order|, m.peers, m.random, m.addrs) && TriedOk(m.peers, m.tried, m.triedHash)
    modifies m`peers, m`news
    ensures Partly(src.news, order, n, m.news, b + 1) && Counted(m.peers, m.news)
    ensures forall c :: b < c < |m.news| ==> m.news[c] == old(m.news)[c]
    ensures Loaded(src.peers, order, |order|, m.peers, m.random, m.addrs) && TriedOk(m.peers, m.tried, m.triedHash)
  {
    hide NewsOk, Partly, Counted, Loaded, TriedOk, NumbersOf;
    for k := 0 to |numbers|
      invariant |m.news| == |old(m.news)| && m.news[b] == Members(numbers[..k])
      invariant forall c :: b < c < |m.news| ==> m.news[c] == old(m.news)[c]
      invariant Partly(src.news, order, n, m.news, b) && Counted(m.peers, m.news)
      invariant Loaded(src.peers, order, |order|, m.peers, m.random, m.addrs) && TriedOk(m.peers, m.tried, m.triedHash)
    {
      var i := numbers[k];
      NextNumber(src.peers, order, n, src.news, b, numbers, k, m.peers, m.random, m.addrs, m.news);
      BelowLimit(src.peers, src.news, order, n, m.news, b, i);
      if m.peers[i].refCount < NEW_BUCKETS_PER_ADDRESS {
        BumpKeeps(src.peers, order, |order|, m.peers, m.random, m.addrs, m.tried, m.triedHash, i);
        InsertCounted(m.peers, i, b, m.news);
        PartlyKeeps(src.news, order, n, m.news, b, i);
        m.peers := m.peers[i := m.peers[i].(refCount := m.peers[i].refCount + 1)];
        m.news := m.news[b := m.news[b] + {i}];
      }
    }
    assert numbers[..|numbers|] == numbers;
    BucketDone(src.news, order, n, m.news, b, numbers);
  }

  lemma NextNumber(from: Peers, order: seq<int>, n: nat, was: seq<set<int>>, b: nat, numbers: seq<int>, k: nat,
                   peers: Peers, random: seq<int>, addrs: map<NetAddr, int>, news: seq<set<int>>)
    requires Numbering(from, order, n) && Partly(was, order, n, news, b) && b < |news| && k < |numbers|
    requires NumbersOf(order[..n], was[b], numbers) && news[b] == Members(numbers[..k]) && Counted(peers, news)
    requires Loaded(from, order, |order|, peers, random, addrs)
    ensures var i := numbers[k];
            && 0 <= i < n && order[i] in was[b] && i !in news[b] && i in peers
            && peers[i].refCount == |BucketsOf(news, i)|
            && news[b] + {i} == Members(numbers[..k + 1])
  {
    var i := numbers[k];
    assert i in numbers;
    assert order[..n][i] == order[i];
    assert numbers[..k + 1] == numbers[..k] + [i];
  }

  // ---------- The loaded tables are in order ----------

  lemma {:induction false} RenamedCard(order: seq<int>, n: nat, bucket: set<int>)
    requires Distinct(order) && n <= |order|
    ensures |Renamed(order, n, bucket)| <= |bucket|
  {
    if n > 0 {
      var last := order[n - 1];
      RenamedCard(order, n - 1, bucket - {last});
      var all, rest := Renamed(order, n, bucket), Renamed(order, n - 1, bucket - {last});
      forall i | i in all && i != n - 1
        ensures i in rest
      {
        assert order[i] != last;
      }
      assert all - {n - 1} <= rest;
      SubsetCard(all - {n - 1}, rest);
    }
  }

  /** A peer is in the buckets it was in, under its new number. */
  lemma BucketsRenamed(from: seq<set<int>>, order: seq<int>, n: nat, news: seq<set<int>>, i: nat)
    requires n <= |order| && i < |order| && Partly(from, order, n, news, |news|)
    ensures BucketsOf(news, i) == if i < n then BucketsOf(from, order[i]) else {}
  {
    forall b: nat | b < |news|
      ensures i in news[b] <==> i < n && order[i] in from[b]
    {
      assert news[b] == Renamed(order, n, from[b]);
    }
  }

  lemma LoadedNews(from: Peers, was: seq<set<int>>, order: seq<int>, n: nat,
                   peers: Peers, random: seq<int>, addrs: map<NetAddr, int>, news: seq<set<int>>)
    requires NewsOk(from, was, None) && Numbering(from, order, n) && Loaded(from, order, |order|, peers, random, addrs)
    requires Partly(was, order, n, news, |news|) && Counted(peers, news)
    ensures NewsOk(peers, news, None)
    ensures forall i :: i in peers ==> peers[i].refCount == from[order[i]].refCount
  {
    forall i | i in peers
      ensures RefsOk(peers[i], news, i, None) && peers[i].refCount == from[order[i]].refCount
    {
      var id := order[i];
      BucketsRenamed(was, order, n, news, i);
      assert id in from && RefsOk(from[id], was, id, None) && LoadedAs(from[id], peers[i], i);
    }
    forall b | 0 <= b < |news|
      ensures |news[b]| <= NEW_BUCKET_SIZE && MembersAreNew(peers, news[b])
    {
      assert news[b] == Renamed(order, n, was[b]);
      RenamedCard(order, n, was[b]);
      forall i | i in news[b]
        ensures i in peers && !peers[i].inTried
      {
        assert 0 <= i < n;
        assert LoadedAs(from[order[i]], peers[i], i);
      }
    }
  }

  lemma LoadedIndex(from: Peers, order: seq<int>, n: nat, peers: Peers, random: seq<int>, addrs: map<NetAddr, int>)
    requires Numbering(from, order, n) && Loaded(from, order, |order|, peers, random, addrs)
    ensures RandomOk(peers, random) && IdsBelow(peers, |order|) && CountsOk(peers, |order| - n, n)
  {
    forall i | i in peers
      ensures peers[i].randomPos == i && (peers[i].inTried <==> i >= n)
    {
      assert LoadedAs(from[order[i]], peers[i], i);
    }
    var first, last := seq(n, i => i), seq(|order| - n, i => n + i);
    forall i | i in NewIds(peers)
      ensures i in first
    {
      assert first[i] == i;
    }
    forall i | i in TriedIds(peers)
      ensures i in last
    {
      assert last[i - n] == i;
    }
    ListsCard(first, NewIds(peers));
    ListsCard(last, TriedIds(peers));
  }

  /** Nothing is lost but ids, the random order, the order within tried buckets and memory-only fields: order is the
      renumbering, number i standing for the peer order[i]. */
  ghost predicate Reproduces(from: Peers, was: seq<set<int>>, order: seq<int>, peers: Peers, news: seq<set<int>>) {
    && Distinct(order)
    && (forall id :: id in from ==> id in order)
    && (forall i :: i in peers <==> 0 <= i < |order|)
    && (forall i :: i in peers ==> order[i] in from && Same(from[order[i]], peers[i]))
    && |news| == |was|
    && (forall b, i :: 0 <= b < |news| && i in peers ==> (i in news[b] <==> order[i] in was[b]))
  }

  ghost predicate Same(p: Peer, q: Peer) {
    Save(q) == Save(p) && q.inTried == p.inTried && q.refCount == p.refCount
  }

  lemma LoadedReproduces(from: Peers, was: seq<set<int>>, order: seq<int>, n: nat,
                         peers: Peers, random: seq<int>, addrs: map<NetAddr, int>, news: seq<set<int>>)
    requires NewsOk(from, was, None) && Numbering(from, order, n) && Loaded(from, order, |order|, peers, random, addrs)
    requires Partly(was, order, n, news, |news|) && Counted(peers, news)
    ensures Reproduces(from, was, order, peers, news)
  {
    LoadedNews(from, was, order, n, peers, random, addrs, news);
    forall i | i in peers
      ensures order[i] in from && Same(from[order[i]], peers[i])
    {
      assert LoadedAs(from[order[i]], peers[i], i);
    }
    forall b, i | 0 <= b < |news| && i in peers
      ensures i in news[b] <==> order[i] in was[b]
    {
      assert news[b] == Renamed(order, n, was[b]);
      if order[i] in was[b] {
        MemberIsNew(from, was, None, b, order[i]);
      }
    }
  }

  // ---------- The round trip ----------

  /** Deserialization of an archive that src wrote. */
  method Read(m: Manager, a: Archive, ghost src: Manager, ghost newOrder: seq<int>, ghost triedOrder: seq<int>)
    requires m != src && src.Valid() && m.triedHash == src.triedHash
    requires Describes(a, src.peers, src.news, newOrder, triedOrder)
    modifies m
    ensures m.Valid() && m.nNew == src.nNew && m.nTried == src.nTried
    ensures Reproduces(src.peers, src.news, newOrder + triedOrder, m.peers, m.news)
  {
    assert |src.news| == NEW_BUCKET_COUNT && From(src, newOrder + triedOrder, a) by {
      NumberedByArchive(a, src.peers, src.news, newOrder, triedOrder);
    }
    ghost var order, n := newOrder + triedOrder, |a.newPeers|;
    assert order[..n] == newOrder;
    hide RandomOk, AddrsOk, NewsOk, CountsOk, IdsBelow, Numbering, Loaded, SavedAs, TriedOk, Reproduces, Lists;
    hide NumbersOf;
    m.nNew, m.nTried := a.nNew, a.nTried;
    Clear(m);
    LoadNew(m, a, src, order);
    LoadTried(m, a, src, order);
    NoBucketsYet(src.news, order, n, m.news, m.peers);
    for b := 0 to NEW_BUCKET_COUNT
      invariant m.nNew == a.nNew && m.nTried == a.nTried && m.idCount == |order|
      invariant Partly(src.news, order, n, m.news, b) && Counted(m.peers, m.news)
      invariant forall c :: b <= c < |m.news| ==> m.news[c] == {}
      invariant Loaded(src.peers, order, |order|, m.peers, m.random, m.addrs) && TriedOk(m.peers, m.tried, m.triedHash)
    {
      LoadBucket(m, b, a.buckets[b], src, order, n);
    }
    Finish(m, src, order, n);
  }

  lemma NoBucketsYet(from: seq<set<int>>, order: seq<int>, n: nat, news: seq<set<int>>, peers: Peers)
    requires n <= |order| && |news| == |from| && Unreferenced(peers) && forall b :: 0 <= b < |news| ==> news[b] == {}
    ensures Partly(from, order, n, news, 0) && Counted(peers, news)
  {
    forall i | i in peers
      ensures BucketsOf(news, i) == {}
    {
    }
  }

  lemma Finish(m: Manager, src: Manager, order: seq<int>, n: nat)
    requires src.Valid() && Numbering(src.peers, order, n) && m.idCount == |order| && m.nNew == n
    requires m.nTried == |order| - n
    requires Partly(src.news, order, n, m.news, |m.news|) && Counted(m.peers, m.news)
    requires Loaded(src.peers, order, |order|, m.peers, m.random, m.addrs) && TriedOk(m.peers, m.tried, m.triedHash)
    ensures m.Valid() && m.nNew == src.nNew && m.nTried == src.nTried
    ensures Reproduces(src.peers, src.news, order, m.peers, m.news)
  {
    LoadedNews(src.peers, src.news, order, n, m.peers, m.random, m.addrs, m.news);
    LoadedIndex(src.peers, order, n, m.peers, m.random, m.addrs);
    LoadedReproduces(src.peers, src.news, order, n, m.peers, m.random, m.addrs, m.news);
    SameCounts(src.peers, order, n);
    assert AddrsOk(m.peers, m.addrs);
  }

  lemma SameCounts(from: Peers, order: seq<int>, n: nat)
    requires Numbering(from, order, n)
    ensures |NewIds(from)| == n && |TriedIds(from)| == |order| - n
  {
    forall id | id in from
      ensures id in if from[id].inTried then order[n..] else order[..n]
    {
      var i :| 0 <= i < |order| && order[i] == id;
      assert i < n ==> order[..n][i] == id;
      assert i >= n ==> order[n..][i - n] == id;
    }
    ListsCard(order[..n], NewIds(from));
    ListsCard(order[n..], TriedIds(from));
  }

  /** Saving a manager and loading it again. */
  method RoundTrip(src: Manager) returns (m: Manager, ghost order: seq<int>)
    requires src.Valid()
    ensures fresh(m) && m.Valid() && m.nNew == src.nNew && m.nTried == src.nTried
    ensures Reproduces(src.peers, src.news, order, m.peers, m.news)
  {
    hide RandomOk, AddrsOk, NewsOk, CountsOk, IdsBelow, TriedOk, Reproduces, Describes;
    var a := Write(src);
    ghost var newOrder, triedOrder :| Describes(a, src.peers, src.news, newOrder, triedOrder);
    m := new Manager(src.triedHash, src.newHash, src.routable);
    Read(m, a, src, newOrder, triedOrder);
    order := newOrder + triedOrder;
  }
}
