/** The tables of NetworkPeerManager as values: what each index promises and how single updates keep it. */
module PeerTables {
  import opened Primitives

  const TRIED_BUCKET_COUNT: nat := 64
  const TRIED_BUCKET_SIZE: nat := 64
  const NEW_BUCKET_COUNT: nat := 256
  const NEW_BUCKET_SIZE: nat := 64
  const NEW_BUCKETS_PER_ADDRESS: nat := 4

  type NetAddr = nat

  /** CService: a network address and a port. */
  datatype Service = Service(net: NetAddr, port: nat)

  /** CAddress; the service flags are the set of bits that are on. */
  datatype Address = Address(service: Service, services: set<nat>, time: int)

  /** NetworkPeer. */
  datatype Peer = Peer(address: Address, source: NetAddr, lastSuccess: int, lastTry: int, attempts: int,
                       refCount: int, inTried: bool, randomPos: int)
  {
    function Net(): NetAddr {
      address.service.net
    }
  }

  type Peers = map<int, Peer>

  /** The keyed hash that picks the tried bucket of a service. */
  type TriedHash = Service -> nat

  function TriedBucket(hash: TriedHash, p: Peer): (b: nat)
    ensures b < TRIED_BUCKET_COUNT
  {
    hash(p.address.service) % TRIED_BUCKET_COUNT
  }

  // ---------- What the indexes promise ----------

  /** random is a permutation of the ids, inverse to randomPos. */
  ghost predicate RandomOk(peers: Peers, random: seq<int>) {
    && (forall i :: 0 <= i < |random| ==> random[i] in peers && peers[random[i]].randomPos == i)
    && (forall id :: id in peers ==> 0 <= peers[id].randomPos < |random| && random[peers[id].randomPos] == id)
  }

  /** addrs is inverse to the address of each peer. */
  ghost predicate AddrsOk(peers: Peers, addrs: map<NetAddr, int>) {
    && (forall a :: a in addrs ==> addrs[a] in peers && peers[addrs[a]].Net() == a)
    && (forall id :: id in peers ==> peers[id].Net() in addrs && addrs[peers[id].Net()] == id)
  }

  /** The new buckets an id is in. */
  ghost function BucketsOf(news: seq<set<int>>, id: int): set<nat> {
    set b: nat | b < |news| && id in news[b]
  }

  /** The reference count is the number of new buckets, plus one for an id that is about to be put into one more. */
  ghost predicate RefsOk(p: Peer, news: seq<set<int>>, id: int, pending: Option<int>) {
    if p.inTried then p.refCount == 0
    else
      && 1 <= p.refCount <= NEW_BUCKETS_PER_ADDRESS
      && p.refCount == |BucketsOf(news, id)| + if pending == Some(id) then 1 else 0
  }

  ghost predicate MembersAreNew(peers: Peers, bucket: set<int>) {
    forall id :: id in bucket ==> id in peers && !peers[id].inTried
  }

  ghost predicate NewsOk(peers: Peers, news: seq<set<int>>, pending: Option<int>) {
    && |news| == NEW_BUCKET_COUNT
    && (forall b :: 0 <= b < |news| ==> |news[b]| <= NEW_BUCKET_SIZE && MembersAreNew(peers, news[b]))
    && (forall id :: id in peers ==> RefsOk(peers[id], news, id, pending))
  }

  ghost predicate TriedBucketOk(peers: Peers, bucket: seq<int>, b: nat, hash: TriedHash) {
    && |bucket| <= TRIED_BUCKET_SIZE
    && Distinct(bucket)
    && (forall id :: id in bucket ==> id in peers && peers[id].inTried && TriedBucket(hash, peers[id]) == b)
  }

  /** Every tried id is in exactly one slot: in the bucket of its address, once. */
  ghost predicate TriedOk(peers: Peers, tried: seq<seq<int>>, hash: TriedHash) {
    && |tried| == TRIED_BUCKET_COUNT
    && (forall b :: 0 <= b < |tried| ==> TriedBucketOk(peers, tried[b], b, hash))
    && (forall id :: id in peers && peers[id].inTried ==> id in tried[TriedBucket(hash, peers[id])])
  }

  ghost predicate IdsBelow(peers: Peers, idCount: int) {
    0 <= idCount && forall id :: id in peers ==> 0 <= id < idCount
  }

  ghost function NewIds(peers: Peers): set<int> {
    set id | id in peers && !peers[id].inTried
  }

  ghost function TriedIds(peers: Peers): set<int> {
    set id | id in peers && peers[id].inTried
  }

  ghost predicate CountsOk(peers: Peers, nTried: int, nNew: int) {
    nTried == |TriedIds(peers)| && nNew == |NewIds(peers)|
  }

  // ---------- Updates that change nothing an index depends on ----------

  /** Equal but for the position in the random order. */
  ghost predicate SameButPos(p: Peer, q: Peer) {
    && p.address == q.address && p.source == q.source
    && p.lastSuccess == q.lastSuccess && p.lastTry == q.lastTry && p.attempts == q.attempts
    && p.refCount == q.refCount && p.inTried == q.inTried
  }

  /** The same ids, with the same data up to the random order. */
  ghost predicate Reordered(before: Peers, after: Peers) {
    && (forall id :: id in before <==> id in after)
    && (forall id :: id in before ==> SameButPos(before[id], after[id]))
  }

  /** Equal in all that the indexes depend on. */
  ghost predicate SameTables(p: Peer, q: Peer) {
    && p.address.service == q.address.service && p.refCount == q.refCount
    && p.inTried == q.inTried && p.randomPos == q.randomPos
  }

  lemma ReorderedKeepsIndex(before: Peers, after: Peers, addrs: map<NetAddr, int>, nTried: int, nNew: int)
    requires Reordered(before, after)
    requires AddrsOk(before, addrs) && CountsOk(before, nTried, nNew)
    ensures AddrsOk(after, addrs) && CountsOk(after, nTried, nNew)
  {
    forall id | id in after
      ensures id in before && after[id].address == before[id].address && after[id].inTried == before[id].inTried
    {
    }
    forall id | id in before
      ensures id in after
    {
    }
    forall a | a in addrs
      ensures addrs[a] in after && after[addrs[a]].Net() == a
    {
      assert addrs[a] in before;
    }
    assert NewIds(after) == NewIds(before);
    assert TriedIds(after) == TriedIds(before);
  }

  lemma ReorderedKeepsBuckets(before: Peers, after: Peers, news: seq<set<int>>, pending: Option<int>,
                              tried: seq<seq<int>>, hash: TriedHash, idCount: int)
    requires Reordered(before, after)
    requires NewsOk(before, news, pending) && TriedOk(before, tried, hash) && IdsBelow(before, idCount)
    ensures NewsOk(after, news, pending) && TriedOk(after, tried, hash) && IdsBelow(after, idCount)
  {
  }

  lemma UpdateKeeps(peers: Peers, id: int, p: Peer, addrs: map<NetAddr, int>, random: seq<int>, news: seq<set<int>>,
                    tried: seq<seq<int>>, hash: TriedHash, nTried: int, nNew: int)
    requires id in peers && SameTables(peers[id], p)
    requires RandomOk(peers, random) && AddrsOk(peers, addrs) && CountsOk(peers, nTried, nNew)
    requires NewsOk(peers, news, None) && TriedOk(peers, tried, hash)
    ensures var after := peers[id := p];
            && RandomOk(after, random) && AddrsOk(after, addrs) && CountsOk(after, nTried, nNew)
            && NewsOk(after, news, None) && TriedOk(after, tried, hash)
  {
    IndexKeeps2(peers, id, p, random, addrs);
    StatusKeeps(peers, id, p);
    UpdateKeepsBuckets(peers, id, p, news, tried, hash);
    hide RandomOk, AddrsOk, NewsOk, TriedOk, NewIds, TriedIds;
  }

  lemma IndexKeeps2(peers: Peers, id: int, p: Peer, random: seq<int>, addrs: map<NetAddr, int>)
    requires RandomOk(peers, random) && AddrsOk(peers, addrs)
    requires id in peers && p.Net() == peers[id].Net() && p.randomPos == peers[id].randomPos
    ensures RandomOk(peers[id := p], random) && AddrsOk(peers[id := p], addrs)
  {
  }

  /** A peer that keeps its status keeps the tables it is counted in. */
  lemma StatusKeeps(peers: Peers, id: int, p: Peer)
    requires id in peers && p.inTried == peers[id].inTried
    ensures NewIds(peers[id := p]) == NewIds(peers) && TriedIds(peers[id := p]) == TriedIds(peers)
  {
  }

  lemma UpdateKeepsBuckets(peers: Peers, id: int, p: Peer, news: seq<set<int>>, tried: seq<seq<int>>, hash: TriedHash)
    requires id in peers && SameTables(peers[id], p) && NewsOk(peers, news, None) && TriedOk(peers, tried, hash)
    ensures NewsOk(peers[id := p], news, None) && TriedOk(peers[id := p], tried, hash)
  {
    TriedByPeers(peers, peers[id := p], tried, hash);
    hide TriedOk;
  }

  /** Taking the last peer of the random order out of the indexes. */
  lemma DeleteKeeps(peers: Peers, random: seq<int>, addrs: map<NetAddr, int>, id: int)
    requires RandomOk(peers, random) && AddrsOk(peers, addrs) && random != [] && id in peers
    requires random[|random| - 1] == id
    ensures RandomOk(peers - {id}, random[..|random| - 1]) && AddrsOk(peers - {id}, addrs - {peers[id].Net()})
  {
  }

  /** The tried table depends on tried peers only. */
  lemma TriedByPeers(before: Peers, after: Peers, tried: seq<seq<int>>, hash: TriedHash)
    requires TriedOk(before, tried, hash)
    requires forall k :: k in after && after[k].inTried ==>
                           k in before && before[k].inTried && after[k].address.service == before[k].address.service
    requires forall k :: k in before && before[k].inTried ==> k in after && after[k].inTried
    ensures TriedOk(after, tried, hash) && TriedIds(after) == TriedIds(before)
  {
    forall b: nat | b < |tried|
      ensures TriedBucketOk(after, tried[b], b, hash)
    {
      assert TriedBucketOk(before, tried[b], b, hash);
    }
    forall k | k in TriedIds(before)
      ensures k in TriedIds(after)
    {
    }
    forall k | k in TriedIds(after)
      ensures k in TriedIds(before)
    {
    }
  }

  /** The random order and the address index do not depend on the buckets. */
  lemma IndexKeeps(peers: Peers, id: int, p: Peer, random: seq<int>, addrs: map<NetAddr, int>, idCount: int)
    requires RandomOk(peers, random) && AddrsOk(peers, addrs) && IdsBelow(peers, idCount)
    requires id in peers && p.address == peers[id].address && p.randomPos == peers[id].randomPos
    ensures var after := peers[id := p];
            RandomOk(after, random) && AddrsOk(after, addrs) && IdsBelow(after, idCount)
  {
  }

  // ---------- Buckets of new peers ----------

  lemma BucketsOfInsert(news: seq<set<int>>, b: nat, id: int, other: int)
    requires b < |news|
    ensures BucketsOf(news[b := news[b] + {id}], other)
         == BucketsOf(news, other) + if other == id then {b} else {}
  {
  }

  lemma BucketsOfErase(news: seq<set<int>>, b: nat, id: int, other: int)
    requires b < |news|
    ensures BucketsOf(news[b := news[b] - {id}], other)
         == BucketsOf(news, other) - if other == id then {b} else {}
  {
  }

  /** The only reference to an id is the only bucket it is in. */
  lemma LastReference(news: seq<set<int>>, b: nat, id: int)
    requires b < |news| && id in news[b] && |BucketsOf(news, id)| == 1
    ensures forall c :: 0 <= c < |news| && id in news[c] ==> c == b
  {
    var s := BucketsOf(news, id);
    forall c | 0 <= c < |news| && id in news[c]
      ensures c == b
    {
      if c != b {
        assert {b, c} <= s;
        SubsetCard({b, c}, s);
      }
    }
  }

  lemma SubsetCard<T>(a: set<T>, b: set<T>)
    requires a <= b
    ensures |a| <= |b|
    ensures |a| == |b| ==> a == b
  {
    var rest := b - a;
    assert b == a + rest;
  }

  /** Equal but for the random order and the reference count. */
  ghost predicate SameButTables(p: Peer, q: Peer) {
    && p.address == q.address && p.source == q.source && p.inTried == q.inTried
    && p.lastSuccess == q.lastSuccess && p.lastTry == q.lastTry && p.attempts == q.attempts
  }

  /** after is before with one reference to id less, and without id when that was the last one. */
  ghost predicate Released(before: Peers, after: Peers, id: int) {
    && id in before
    && (forall k :: k in after <==> k in before && (k != id || before[id].refCount != 1))
    && (forall k :: k in after ==> SameButTables(before[k], after[k])
                                   && after[k].refCount == before[k].refCount - if k == id then 1 else 0)
  }

  lemma MemberIsNew(peers: Peers, news: seq<set<int>>, pending: Option<int>, b: nat, id: int)
    requires NewsOk(peers, news, pending) && b < |news| && id in news[b]
    ensures id in peers && !peers[id].inTried && peers[id].refCount >= 1
  {
    assert MembersAreNew(peers, news[b]);
    assert RefsOk(peers[id], news, id, pending);
  }

  lemma ReleaseTried(before: Peers, after: Peers, id: int, tried: seq<seq<int>>, hash: TriedHash, idCount: int)
    requires TriedOk(before, tried, hash) && Released(before, after, id) && !before[id].inTried
    requires IdsBelow(before, idCount)
    ensures TriedOk(after, tried, hash) && TriedIds(after) == TriedIds(before)
    ensures IdsBelow(after, idCount)
  {
    TriedByPeers(before, after, tried, hash);
  }

  lemma ReleaseCounts(before: Peers, after: Peers, id: int)
    requires Released(before, after, id) && !before[id].inTried
    ensures NewIds(after) == if before[id].refCount == 1 then NewIds(before) - {id} else NewIds(before)
    ensures |NewIds(after)| == |NewIds(before)| - if before[id].refCount == 1 then 1 else 0
  {
    assert id in NewIds(before);
    forall k | k in NewIds(before) && (k != id || before[id].refCount != 1)
      ensures k in NewIds(after)
    {
    }
    forall k | k in NewIds(after)
      ensures k in NewIds(before) && (k != id || before[id].refCount != 1)
    {
    }
  }

  /** Taking one reference away, and the id itself with the last one. */
  lemma ReleaseKeeps(before: Peers, after: Peers, id: int, b: nat, news: seq<set<int>>, pending: Option<int>)
    requires NewsOk(before, news, pending) && b < |news| && id in news[b] && pending != Some(id)
    requires Released(before, after, id)
    ensures NewsOk(after, news[b := news[b] - {id}], pending)
  {
    var result := news[b := news[b] - {id}];
    assert MembersAreNew(before, news[b]);
    assert RefsOk(before[id], news, id, pending);
    forall c | 0 <= c < |result|
      ensures |result[c]| <= NEW_BUCKET_SIZE && MembersAreNew(after, result[c])
    {
      assert MembersAreNew(before, news[c]);
      if before[id].refCount == 1 {
        LastReference(news, b, id);
      }
    }
    forall k | k in after
      ensures RefsOk(after[k], result, k, pending)
    {
      assert RefsOk(before[k], news, k, pending);
      BucketsOfErase(news, b, id, k);
    }
  }

  /** Putting the pending id into its bucket. */
  lemma InsertKeeps(peers: Peers, id: int, b: nat, news: seq<set<int>>)
    requires NewsOk(peers, news, Some(id)) && b < |news| && id in peers && !peers[id].inTried
    requires id !in news[b] && |news[b]| < NEW_BUCKET_SIZE
    ensures NewsOk(peers, news[b := news[b] + {id}], None)
  {
    var result := news[b := news[b] + {id}];
    forall c | 0 <= c < |result|
      ensures |result[c]| <= NEW_BUCKET_SIZE && MembersAreNew(peers, result[c])
    {
      assert MembersAreNew(peers, news[c]);
    }
    forall k | k in peers
      ensures RefsOk(peers[k], result, k, None)
    {
      assert RefsOk(peers[k], news, k, Some(id));
      BucketsOfInsert(news, b, id, k);
    }
  }

  /** NewsOk but for the bounds on the reference count of one id. */
  ghost predicate NewsOkBut(peers: Peers, news: seq<set<int>>, id: int) {
    && |news| == NEW_BUCKET_COUNT
    && (forall b :: 0 <= b < |news| ==> |news[b]| <= NEW_BUCKET_SIZE && MembersAreNew(peers, news[b]))
    && (forall k :: k in peers && k != id ==> RefsOk(peers[k], news, k, None))
    && id in peers && !peers[id].inTried
    && peers[id].refCount == |BucketsOf(news, id)|
  }

  /** A reference is counted before it is put into the bucket. */
  lemma CountReference(peers: Peers, id: int, p: Peer, news: seq<set<int>>)
    requires NewsOkBut(peers, news, id) && peers[id].refCount < NEW_BUCKETS_PER_ADDRESS
    requires !p.inTried && p.refCount == peers[id].refCount + 1
    ensures NewsOk(peers[id := p], news, Some(id))
  {
    var after := peers[id := p];
    forall b | 0 <= b < |news|
      ensures MembersAreNew(after, news[b])
    {
      assert MembersAreNew(peers, news[b]);
    }
    forall k | k in after
      ensures RefsOk(after[k], news, k, Some(id))
    {
      assert k != id ==> RefsOk(peers[k], news, k, None);
    }
  }

  lemma MayReference(peers: Peers, id: int, news: seq<set<int>>)
    requires NewsOk(peers, news, None) && id in peers && !peers[id].inTried
    ensures NewsOkBut(peers, news, id) && peers[id].refCount <= NEW_BUCKETS_PER_ADDRESS
  {
    assert RefsOk(peers[id], news, id, None);
  }

  /** A peer that no table knows yet. */
  lemma Stranger(before: Peers, id: int, p: Peer, news: seq<set<int>>, tried: seq<seq<int>>, hash: TriedHash)
    requires NewsOk(before, news, None) && TriedOk(before, tried, hash) && id !in before && !p.inTried
    requires p.refCount == 0
    ensures NewsOkBut(before[id := p], news, id) && TriedOk(before[id := p], tried, hash)
    ensures forall b :: 0 <= b < |news| ==> id !in news[b]
    ensures NewIds(before[id := p]) == NewIds(before) + {id} && TriedIds(before[id := p]) == TriedIds(before)
    ensures |NewIds(before[id := p])| == |NewIds(before)| + 1
  {
    assert NewIds(before[id := p]) == NewIds(before) + {id};
    var after := before[id := p];
    forall b | 0 <= b < |news|
      ensures MembersAreNew(after, news[b]) && id !in news[b]
    {
      assert MembersAreNew(before, news[b]);
    }
    assert BucketsOf(news, id) == {};
    forall k | k in after && k != id
      ensures RefsOk(after[k], news, k, None)
    {
      assert RefsOk(before[k], news, k, None);
    }
    TriedByPeers(before, after, tried, hash);
  }

  /** All peers but a removed one, which was not tried, are kept with all that is known about them. */
  ghost predicate Kept(before: Peers, after: Peers, removed: set<int>) {
    && |removed| <= 1
    && (forall k :: k in removed ==> k in before && !before[k].inTried && before[k].refCount == 1)
    && (forall k :: k in before ==> k in after || k in removed)
    && (forall k :: k in after ==> k in before && k !in removed)
    && (forall k :: k in after ==> SameButTables(before[k], after[k]))
  }

  lemma KeptSelf(peers: Peers)
    ensures Kept(peers, peers, {})
  {
  }

  lemma CountedKeeps(before: Peers, counted: Peers, id: int)
    requires id in before && counted == before[id := before[id].(refCount := before[id].refCount + 1)]
    ensures Kept(before, counted, {})
  {
  }

  /** Making room for id keeps all but the removed peer. */
  lemma ShrunkKeeps(before: Peers, counted: Peers, after: Peers, id: int, victim: int)
    requires id in before && counted == before[id := before[id].(refCount := before[id].refCount + 1)]
    requires Released(counted, after, victim) && victim != id && !counted[victim].inTried
    ensures Kept(before, after, if counted[victim].refCount == 1 then {victim} else {})
    ensures id in after && after[id].refCount == before[id].refCount + 1 && after[id].address == before[id].address
    ensures after[id].inTried == before[id].inTried
  {
  }

  // ---------- From new to tried and back ----------

  /** Taking id out of one more bucket on its way to the tried table. */
  lemma ClearKeeps(peers: Peers, id: int, b: nat, news: seq<set<int>>)
    requires NewsOkBut(peers, news, id) && b < |news| && id in news[b]
    ensures NewsOkBut(peers[id := peers[id].(refCount := peers[id].refCount - 1)], news[b := news[b] - {id}], id)
  {
    var after := peers[id := peers[id].(refCount := peers[id].refCount - 1)];
    var result := news[b := news[b] - {id}];
    forall c | 0 <= c < |result|
      ensures |result[c]| <= NEW_BUCKET_SIZE && MembersAreNew(after, result[c])
    {
      assert MembersAreNew(peers, news[c]);
    }
    forall k | k in after && k != id
      ensures RefsOk(after[k], result, k, None)
    {
      assert RefsOk(peers[k], news, k, None);
      BucketsOfErase(news, b, id, k);
    }
    BucketsOfErase(news, b, id, id);
  }

  ghost predicate InNone(news: seq<set<int>>, id: int) {
    forall b :: 0 <= b < |news| ==> id !in news[b]
  }

  /** The buckets below b are without id, the others as they were. */
  ghost predicate ErasedTo(was: seq<set<int>>, news: seq<set<int>>, id: int, b: nat) {
    && |news| == |was|
    && (forall c :: 0 <= c < b && c < |news| ==> news[c] == was[c] - {id})
    && (forall c :: b <= c < |news| ==> news[c] == was[c])
  }

  lemma ErasedNone(was: seq<set<int>>, id: int)
    ensures ErasedTo(was, was, id, 0)
  {
  }

  lemma ErasedNext(was: seq<set<int>>, mid: seq<set<int>>, news: seq<set<int>>, id: int, b: nat)
    requires b < |was| && ErasedTo(was, mid, id, b) && news == mid[b := mid[b] - {id}]
    ensures ErasedTo(was, news, id, b + 1)
  {
  }

  lemma ErasedAll(was: seq<set<int>>, news: seq<set<int>>, id: int)
    requires ErasedTo(was, news, id, |news|)
    ensures |news| == |was| && forall c :: 0 <= c < |news| ==> news[c] == was[c] - {id}
  {
  }

  /** An id in no new bucket may become tried. */
  lemma PromoteKeepsNews(peers: Peers, id: int, news: seq<set<int>>)
    requires NewsOkBut(peers, news, id) && InNone(news, id)
    ensures peers[id].refCount == 0
    ensures NewsOk(peers[id := peers[id].(inTried := true)], news, None)
  {
    assert BucketsOf(news, id) == {};
    var after := peers[id := peers[id].(inTried := true)];
    forall b | 0 <= b < |news|
      ensures MembersAreNew(after, news[b])
    {
      assert MembersAreNew(peers, news[b]);
    }
    forall k | k in after
      ensures RefsOk(after[k], news, k, None)
    {
      assert k != id ==> RefsOk(peers[k], news, k, None);
    }
  }

  /** The id goes to a free slot of its bucket. */
  lemma PromoteKeepsTried(peers: Peers, id: int, tried: seq<seq<int>>, hash: TriedHash)
    requires TriedOk(peers, tried, hash) && id in peers && !peers[id].inTried
    requires |tried[TriedBucket(hash, peers[id])]| < TRIED_BUCKET_SIZE
    ensures var b := TriedBucket(hash, peers[id]);
            TriedOk(peers[id := peers[id].(inTried := true)], tried[b := tried[b] + [id]], hash)
  {
    var b := TriedBucket(hash, peers[id]);
    var after := peers[id := peers[id].(inTried := true)];
    var result := tried[b := tried[b] + [id]];
    forall c: nat | c < |result|
      ensures TriedBucketOk(after, result[c], c, hash)
    {
      assert TriedBucketOk(peers, tried[c], c, hash);
    }
  }

  lemma NewShape(peers: Peers, news: seq<set<int>>, pending: Option<int>)
    requires NewsOk(peers, news, pending)
    ensures |news| == NEW_BUCKET_COUNT && forall b :: 0 <= b < |news| ==> |news[b]| <= NEW_BUCKET_SIZE
  {
  }

  lemma NewShapeBut(peers: Peers, news: seq<set<int>>, id: int)
    requires NewsOkBut(peers, news, id)
    ensures |news| == NEW_BUCKET_COUNT && id in peers && !peers[id].inTried
    ensures forall b :: 0 <= b < |news| ==> |news[b]| <= NEW_BUCKET_SIZE
  {
  }

  lemma TriedShape(peers: Peers, tried: seq<seq<int>>, hash: TriedHash)
    requires TriedOk(peers, tried, hash)
    ensures |tried| == TRIED_BUCKET_COUNT
    ensures forall b :: 0 <= b < |tried| ==> |tried[b]| <= TRIED_BUCKET_SIZE
  {
    forall b: nat | b < |tried|
      ensures |tried[b]| <= TRIED_BUCKET_SIZE
    {
      assert TriedBucketOk(peers, tried[b], b, hash);
    }
  }

  lemma PromoteCounts(peers: Peers, id: int)
    requires id in peers && !peers[id].inTried
    ensures var after := peers[id := peers[id].(inTried := true)];
            && TriedIds(after) == TriedIds(peers) + {id} && NewIds(after) == NewIds(peers) - {id}
            && |TriedIds(after)| == |TriedIds(peers)| + 1 && |NewIds(after)| == |NewIds(peers)| - 1
  {
    var after := peers[id := peers[id].(inTried := true)];
    assert TriedIds(after) == TriedIds(peers) + {id};
    assert NewIds(after) == NewIds(peers) - {id};
  }

  function Demoted(p: Peer): Peer {
    p.(inTried := false, refCount := 1)
  }

  /** The peers after id and e changed places. */
  function Exchanged(peers: Peers, id: int, e: int): Peers
    requires id in peers && e in peers
  {
    peers[e := Demoted(peers[e])][id := peers[id].(inTried := true)]
  }

  /** A tried peer goes back to a new bucket with room. */
  lemma DemoteKeepsNews(peers: Peers, e: int, b: nat, news: seq<set<int>>)
    requires NewsOk(peers, news, None) && e in peers && peers[e].inTried
    requires b < |news| && |news[b]| < NEW_BUCKET_SIZE
    ensures NewsOk(peers[e := Demoted(peers[e])], news[b := news[b] + {e}], None)
  {
    var after := peers[e := Demoted(peers[e])];
    var result := news[b := news[b] + {e}];
    forall c | 0 <= c < |news|
      ensures e !in news[c] && MembersAreNew(after, news[c])
    {
      assert MembersAreNew(peers, news[c]);
    }
    assert BucketsOf(news, e) == {};
    forall c | 0 <= c < |result|
      ensures |result[c]| <= NEW_BUCKET_SIZE && MembersAreNew(after, result[c])
    {
      assert MembersAreNew(after, news[c]);
    }
    forall k | k in after
      ensures RefsOk(after[k], result, k, None)
    {
      assert k != e ==> RefsOk(peers[k], news, k, None);
      BucketsOfInsert(news, b, e, k);
    }
  }

  /** Its slot is free for another id of the same bucket. */
  lemma ReplaceKeepsTried(peers: Peers, id: int, pos: nat, tried: seq<seq<int>>, hash: TriedHash)
    requires TriedOk(peers, tried, hash) && id in peers && !peers[id].inTried
    requires pos < |tried[TriedBucket(hash, peers[id])]|
    ensures var b := TriedBucket(hash, peers[id]);
            var e := tried[b][pos];
            && e in peers && peers[e].inTried
            && TriedOk(Exchanged(peers, id, e), tried[b := tried[b][pos := id]], hash)
  {
    var b := TriedBucket(hash, peers[id]);
    var e := tried[b][pos];
    var after := Exchanged(peers, id, e);
    var result := tried[b := tried[b][pos := id]];
    forall c: nat | c < |result|
      ensures TriedBucketOk(after, result[c], c, hash)
    {
      assert TriedBucketOk(peers, tried[c], c, hash);
      assert TriedBucketOk(peers, tried[b], b, hash);
      if c == b {
        ReplacedEntries(tried[b], pos, id);
      }
    }
    forall k | k in after && after[k].inTried
      ensures k in result[TriedBucket(hash, after[k])]
    {
      if k != id {
        var c := TriedBucket(hash, peers[k]);
        assert k in tried[c];
        if c == b {
          ReplacedEntries(tried[b], pos, id);
        }
      } else {
        assert result[b][pos] == id;
      }
    }
  }

  lemma ReplacedEntries(s: seq<int>, pos: nat, id: int)
    requires Distinct(s) && pos < |s| && id !in s
    ensures Distinct(s[pos := id])
    ensures forall k :: k in s[pos := id] <==> k == id || (k in s && k != s[pos])
  {
    var t := s[pos := id];
    forall k | k in s && k != s[pos]
      ensures k in t
    {
      var i :| 0 <= i < |s| && s[i] == k;
      assert t[i] == k;
    }
    assert t[pos] == id;
  }

  lemma ReplaceCounts(peers: Peers, id: int, e: int)
    requires id in peers && !peers[id].inTried && e in peers && peers[e].inTried
    ensures var after := Exchanged(peers, id, e);
            && TriedIds(after) == TriedIds(peers) - {e} + {id}
            && NewIds(after) == NewIds(peers) - {id} + {e}
            && |TriedIds(after)| == |TriedIds(peers)| && |NewIds(after)| == |NewIds(peers)|
  {
    ExchangedIds(peers, id, e);
    var t, n := TriedIds(peers), NewIds(peers);
    hide TriedIds, NewIds, Exchanged;
    assert |t - {e} + {id}| == |t - {e}| + 1 && |n - {id} + {e}| == |n - {id}| + 1;
  }

  lemma ExchangedIds(peers: Peers, id: int, e: int)
    requires id in peers && !peers[id].inTried && e in peers && peers[e].inTried
    ensures id !in TriedIds(peers) && e in TriedIds(peers) && id in NewIds(peers) && e !in NewIds(peers)
    ensures TriedIds(Exchanged(peers, id, e)) == TriedIds(peers) - {e} + {id}
    ensures NewIds(Exchanged(peers, id, e)) == NewIds(peers) - {id} + {e}
  {
    var after := Exchanged(peers, id, e);
    forall k
      ensures k in TriedIds(after) <==> k in TriedIds(peers) - {e} + {id}
      ensures k in NewIds(after) <==> k in NewIds(peers) - {id} + {e}
    {
    }
  }

  /** Exchanging two entries of a bucket. */
  lemma SwapEntries(s: seq<int>, i: nat, j: nat)
    requires Distinct(s) && i < |s| && j < |s|
    ensures var t := s[j := s[i]][i := s[j]];
            Distinct(t) && forall k :: k in t <==> k in s
  {
    var t := s[j := s[i]][i := s[j]];
    forall k | k in s
      ensures k in t
    {
      var m :| 0 <= m < |s| && s[m] == k;
      assert t[if m == i then j else if m == j then i else m] == k;
    }
  }

  lemma ExchangeKeeps(peers: Peers, id: int, e: int, random: seq<int>, addrs: map<NetAddr, int>, idCount: int,
                      news: seq<set<int>>, b: nat)
    requires RandomOk(peers, random) && AddrsOk(peers, addrs) && IdsBelow(peers, idCount)
    requires id in peers && !peers[id].inTried && e in peers && peers[e].inTried
    requires NewsOkBut(peers, news, id) && InNone(news, id) && b < |news| && |news[b]| < NEW_BUCKET_SIZE
    ensures var after := Exchanged(peers, id, e);
            && RandomOk(after, random) && AddrsOk(after, addrs) && IdsBelow(after, idCount)
            && NewsOk(after, news[b := news[b] + {e}], None)
  {
    hide RandomOk, AddrsOk, IdsBelow, NewsOk, NewsOkBut, InNone;
    PromoteKeepsNews(peers, id, news);
    IndexKeeps(peers, e, Demoted(peers[e]), random, addrs, idCount);
    IndexKeeps(peers[e := Demoted(peers[e])], id, peers[id].(inTried := true), random, addrs, idCount);
    var promoted := peers[id := peers[id].(inTried := true)];
    DemoteKeepsNews(promoted, e, b, news);
    assert promoted[e := Demoted(peers[e])] == Exchanged(peers, id, e);
  }

  lemma RefCountKeeps(peers: Peers, id: int, refs: int, random: seq<int>, addrs: map<NetAddr, int>, idCount: int,
                      tried: seq<seq<int>>, hash: TriedHash)
    requires RandomOk(peers, random) && AddrsOk(peers, addrs) && IdsBelow(peers, idCount)
    requires TriedOk(peers, tried, hash) && id in peers && !peers[id].inTried
    ensures var after := peers[id := peers[id].(refCount := refs)];
            && RandomOk(after, random) && AddrsOk(after, addrs)
            && IdsBelow(after, idCount) && TriedOk(after, tried, hash)
            && TriedIds(after) == TriedIds(peers) && NewIds(after) == NewIds(peers)
  {
    var after := peers[id := peers[id].(refCount := refs)];
    IndexKeeps(peers, id, after[id], random, addrs, idCount);
    TriedByPeers(peers, after, tried, hash);
  }

  /** id was promoted, evicted was demoted, and all else is as before. */
  ghost predicate Moved(before: Peers, after: Peers, id: int, evicted: set<int>) {
    && |evicted| <= 1 && id in before && !before[id].inTried && id !in evicted
    && (forall e :: e in evicted ==> e in before && before[e].inTried)
    && (forall k :: k in after <==> k in before)
    && (forall k :: k in after ==>
          after[k] == if k == id then before[k].(refCount := 0, inTried := true)
                      else if k in evicted then Demoted(before[k]) else before[k])
  }

  lemma PromoteMoves(before: Peers, id: int)
    requires id in before && !before[id].inTried
    ensures var cleared := before[id].(refCount := 0);
            Moved(before, before[id := cleared][id := cleared.(inTried := true)], id, {})
  {
  }

  lemma ExchangeMoves(before: Peers, id: int, e: int)
    requires id in before && !before[id].inTried && e in before && before[e].inTried
    ensures Moved(before, Exchanged(before[id := before[id].(refCount := 0)], id, e), id, {e})
  {
  }

  ghost function Members(s: seq<int>): set<int> {
    set x | x in s
  }

  // ---------- The size of the tables ----------

  lemma {:induction false} DistinctCard(s: seq<int>)
    requires Distinct(s)
    ensures |Members(s)| == |s|
  {
    if s != [] {
      var init, last := s[..|s| - 1], s[|s| - 1];
      DistinctCard(init);
      assert s == init + [last] && last !in init;
      assert Members(s) == Members(init) + {last};
    }
  }

  /** The random order has as many entries as there are peers. */
  lemma RandomSize(peers: Peers, random: seq<int>)
    requires RandomOk(peers, random)
    ensures |random| == |peers|
  {
    DistinctCard(random);
    assert forall id :: id in peers ==> id in random;
    assert Members(random) == peers.Keys;
  }

  ghost function InBuckets(news: seq<set<int>>): set<int> {
    if news == [] then {} else InBuckets(news[..|news| - 1]) + news[|news| - 1]
  }

  lemma {:induction false} InBucketsHas(news: seq<set<int>>, b: nat)
    requires b < |news|
    ensures news[b] <= InBuckets(news)
  {
    if b < |news| - 1 {
      InBucketsHas(news[..|news| - 1], b);
    }
  }

  lemma {:induction false} Capacity(news: seq<set<int>>, size: nat)
    requires forall b :: 0 <= b < |news| ==> |news[b]| <= size
    ensures |InBuckets(news)| <= |news| * size
  {
    if news != [] {
      var k := |news| - 1;
      Capacity(news[..k], size);
      assert (k + 1) * size == k * size + size;
    }
  }

  /** A tried bucket seen as a set. */
  ghost function AsSets(tried: seq<seq<int>>): (r: seq<set<int>>)
    ensures |r| == |tried| && forall b :: 0 <= b < |tried| ==> r[b] == Members(tried[b])
  {
    seq(|tried|, b requires 0 <= b < |tried| => Members(tried[b]))
  }

  /** Only a limited number of addresses is kept, whatever was added. */
  lemma TablesAreBounded(peers: Peers, random: seq<int>, news: seq<set<int>>, tried: seq<seq<int>>, hash: TriedHash,
                         nTried: int, nNew: int)
    requires RandomOk(peers, random) && NewsOk(peers, news, None) && TriedOk(peers, tried, hash)
    requires CountsOk(peers, nTried, nNew)
    ensures |random| == nTried + nNew
    ensures nTried <= TRIED_BUCKET_COUNT * TRIED_BUCKET_SIZE
    ensures nNew <= NEW_BUCKET_COUNT * NEW_BUCKET_SIZE
  {
    RandomSize(peers, random);
    assert peers.Keys == TriedIds(peers) + NewIds(peers);
    hide RandomOk;
    TriedFits(peers, tried, hash);
    NewFits(peers, news);
  }

  lemma TriedFits(peers: Peers, tried: seq<seq<int>>, hash: TriedHash)
    requires TriedOk(peers, tried, hash)
    ensures |TriedIds(peers)| <= TRIED_BUCKET_COUNT * TRIED_BUCKET_SIZE
  {
    var sets := AsSets(tried);
    forall b: nat | b < |tried|
      ensures |sets[b]| <= TRIED_BUCKET_SIZE
    {
      assert TriedBucketOk(peers, tried[b], b, hash);
      DistinctCard(tried[b]);
    }
    Capacity(sets, TRIED_BUCKET_SIZE);
    forall id | id in TriedIds(peers)
      ensures id in InBuckets(sets)
    {
      var b := TriedBucket(hash, peers[id]);
      assert id in sets[b];
      InBucketsHas(sets, b);
    }
    SubsetCard(TriedIds(peers), InBuckets(sets));
  }

  lemma NewFits(peers: Peers, news: seq<set<int>>)
    requires NewsOk(peers, news, None)
    ensures |NewIds(peers)| <= NEW_BUCKET_COUNT * NEW_BUCKET_SIZE
  {
    Capacity(news, NEW_BUCKET_SIZE);
    forall id | id in NewIds(peers)
      ensures id in InBuckets(news)
    {
      var b := SomeBucket(peers, news, id);
      InBucketsHas(news, b);
    }
    SubsetCard(NewIds(peers), InBuckets(news));
  }

  /** A peer that was not tried yet is in some new bucket. */
  lemma SomeBucket(peers: Peers, news: seq<set<int>>, id: int) returns (b: nat)
    requires NewsOk(peers, news, None) && id in peers && !peers[id].inTried
    ensures b < |news| && id in news[b]
  {
    assert RefsOk(peers[id], news, id, None);
    var s := BucketsOf(news, id);
    assert s != {};
    b :| b in s;
  }
}
