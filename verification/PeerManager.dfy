/** NetworkPeerManager: five redundant indexes of known peers, updated in place.  Random choices are arbitrary. */
module PeerManager {
  import opened Primitives
  import opened PeerTables

  const TRIED_ENTRIES_INSPECT_ON_EVICT: nat := 4
  const HORIZON_DAYS: int := 30
  const RETRIES: int := 3
  const MAX_FAILURES: int := 10
  const MIN_FAIL_DAYS: int := 7
  const GETADDR_MAX_PCT: nat := 23
  const GETADDR_MAX: nat := 2500
  const MINUTE: int := 60
  const HOUR: int := 3600
  const DAY: int := 86400

  predicate IsTerrible(p: Peer, now: int) {
    if p.lastTry != 0 && p.lastTry >= now - MINUTE then false
    else
      || p.address.time > now + 10 * MINUTE
      || p.address.time == 0
      || now - p.address.time > HORIZON_DAYS * DAY
      || (p.lastSuccess == 0 && p.attempts >= RETRIES)
      || (now - p.lastSuccess > MIN_FAIL_DAYS * DAY && p.attempts >= MAX_FAILURES)
  }

  function Max(a: int, b: int): int {
    if a < b then b else a
  }

  /** What is learnt about a known peer from an address message. */
  function Refresh(p: Peer, a: Address, penalty: int, now: int): Peer {
    var interval := if now - a.time < DAY then HOUR else DAY;
    var stale := a.time != 0 && (p.address.time == 0 || p.address.time < a.time - interval - penalty);
    p.(address := p.address.(time := if stale then Max(0, a.time - penalty) else p.address.time,
                             services := p.address.services + a.services))
  }

  /** What is recorded about a peer that is heard of for the first time. */
  function Newcomer(a: Address, source: NetAddr, penalty: int, position: int): Peer {
    Peer(a.(time := Max(0, a.time - penalty)), source, 0, 0, 0, 0, false, position)
  }

  /** An address message about a known peer that cannot earn it another bucket. */
  predicate Uninformative(p: Peer, a: Address) {
    || a.time == 0
    || (p.address.time != 0 && a.time <= p.address.time)
    || p.inTried
    || p.refCount == NEW_BUCKETS_PER_ADDRESS
  }

  function Factor(refCount: int): (r: int)
    ensures r >= 1
  {
    if refCount <= 0 then 1 else 2 * Factor(refCount - 1)
  }

  /** Who may be thrown out: nobody tried within the last minute, and else whoever claims to have been seen more than
      ten minutes from now, was not seen for thirty days, was tried three times and never reached, or was tried ten
      times without success and not reached for seven days. */
  lemma TerribleMeans(p: Peer, now: int)
    ensures IsTerrible(p, now)
       <==> && (p.lastTry == 0 || p.lastTry < now - 60)
            && (|| p.address.time > now + 600 || p.address.time == 0 || p.address.time < now - 2_592_000
                || (p.attempts >= 3 && p.lastSuccess == 0)
                || (p.attempts >= 10 && p.lastSuccess < now - 604_800))
  {
  }

  /** A peer that was reached at some time is safe for thirty days, if it is not tried since. */
  lemma ReachedIsSafe(p: Peer, time: int, now: int)
    requires time != 0 && time - 600 <= now <= time + 2_592_000
    ensures !IsTerrible(Succeeded(p, time), now)
  {
  }

  /** What a message changes about a known peer: services are added, and the time moves only forward, by more than an
      hour, unless nothing was known. */
  lemma RefreshMeans(p: Peer, a: Address, penalty: int, now: int)
    ensures var q := Refresh(p, a, penalty, now);
            && q == p.(address := p.address.(time := q.address.time, services := q.address.services))
            && q.address.services == p.address.services + a.services
            && (q.address.time != p.address.time && p.address.time > 0 ==> q.address.time > p.address.time + 3600)
            && var behind := a.time - penalty - p.address.time;
               if a.time != 0 && (p.address.time == 0 || behind > 86400 || (behind > 3600 && a.time > now - 86400))
               then q.address.time == if a.time > penalty then a.time - penalty else 0
               else q.address.time == p.address.time
  {
  }

  /** The chance for one more bucket halves with every bucket. */
  lemma FactorMeans(n: nat)
    ensures Factor(0) == 1 && Factor(n + 1) == 2 * Factor(n)
  {
  }

  /** A sample is 23 percent of the peers, rounded down, and at most 2500. */
  lemma SampleSizeMeans(n: nat)
    ensures SampleSize(n) <= 2500 && 100 * SampleSize(n) <= 23 * n
    ensures SampleSize(n) == 2500 || 100 * (SampleSize(n) + 1) > 23 * n
  {
  }

  /** id joins bucket b, in the place of another if the bucket was full; no other bucket changes. */
  ghost predicate Joined(before: seq<set<int>>, after: seq<set<int>>, b: nat, id: int) {
    && b < |before| && |after| == |before| && after == before[b := after[b]]
    && (if |before[b]| < 64 then after[b] == before[b] + {id}
        else exists v :: v in before[b] && after[b] == before[b] - {v} + {id})
  }

  /** Bucket b has room, after one id had to leave if it was full. */
  ghost predicate Cleared(before: seq<set<int>>, after: seq<set<int>>, b: nat) {
    && b < |before|
    && (if |before[b]| < 64 then after == before
        else exists v :: v in before[b] && after == before[b := before[b] - {v}])
  }

  lemma ClearedBy(was: seq<set<int>>, now: seq<set<int>>, b: nat, v: int)
    requires b < |was| && if |was[b]| < 64 then now == was else v in was[b] && now == was[b := was[b] - {v}]
    ensures Cleared(was, now, b)
  {
  }

  lemma JoinedBy(was: seq<set<int>>, mid: seq<set<int>>, b: nat, id: int)
    requires b < |mid| && Cleared(was, mid, b)
    ensures Joined(was, mid[b := mid[b] + {id}], b, id)
  {
  }

  /** A connection to the peer succeeded. */
  function Succeeded(p: Peer, time: int): Peer {
    p.(lastSuccess := time, lastTry := time, attempts := 0, address := p.address.(time := time))
  }

  /** The bucket looked at in the n-th step. */
  function Turn(start: int, n: int): (b: nat)
    ensures b < NEW_BUCKET_COUNT
  {
    (n + start) % NEW_BUCKET_COUNT
  }

  function SampleSize(n: nat): (r: nat)
    ensures r <= n
  {
    var share := GETADDR_MAX_PCT * n / 100;
    if share > GETADDR_MAX then GETADDR_MAX else share
  }

  /** The sample holds the addresses of the first peers in the random order. */
  ghost predicate Sampled(peers: Peers, random: seq<int>, sample: seq<Address>) {
    && |sample| <= |random|
    && forall i :: 0 <= i < |sample| ==> random[i] in peers && peers[random[i]].address == sample[i]
  }

  lemma SampleNothing(peers: Peers, random: seq<int>)
    ensures Sampled(peers, random, []) && Reordered(peers, peers)
  {
  }

  lemma ReorderedTwice(a: Peers, b: Peers, c: Peers)
    requires Reordered(a, b) && Reordered(b, c)
    ensures Reordered(a, c)
  {
    forall id | id in a
      ensures id in c && SameButPos(a[id], c[id])
    {
      assert id in b && SameButPos(a[id], b[id]) && SameButPos(b[id], c[id]);
    }
  }

  lemma SampledNext(before: Peers, after: Peers, random: seq<int>, next: seq<int>, sample: seq<Address>)
    requires Sampled(before, random, sample) && |sample| < |next| == |random| && RandomOk(after, next)
    requires Reordered(before, after)
    requires forall i :: 0 <= i < |sample| ==> next[i] == random[i]
    ensures next[|sample|] in after && Sampled(before, next, sample + [after[next[|sample|]].address])
  {
    var id := next[|sample|];
    assert id in after && id in before && SameButPos(before[id], after[id]);
  }

  lemma SampledAfter(before: Peers, after: Peers, random: seq<int>, sample: seq<Address>)
    requires Sampled(before, random, sample) && Reordered(before, after)
    ensures Sampled(after, random, sample)
  {
    forall i | 0 <= i < |sample|
      ensures random[i] in after && after[random[i]].address == sample[i]
    {
      var id := random[i];
      assert id in before && id in after && SameButPos(before[id], after[id]);
    }
  }

  lemma SampleIsDistinct(peers: Peers, random: seq<int>, addrs: map<NetAddr, int>, sample: seq<Address>)
    requires RandomOk(peers, random) && AddrsOk(peers, addrs) && Sampled(peers, random, sample)
    ensures forall i, j :: 0 <= i < j < |sample| ==> sample[i].service.net != sample[j].service.net
  {
    forall i, j | 0 <= i < j < |sample|
      ensures sample[i].service.net != sample[j].service.net
    {
      var a, b := random[i], random[j];
      assert a in peers && b in peers && peers[a].randomPos == i && peers[b].randomPos == j;
      assert addrs[peers[a].Net()] == a && addrs[peers[b].Net()] == b;
    }
  }

  /** How many entries of a tried bucket are inspected. */
  function Inspected(s: seq<int>): nat {
    if |s| < TRIED_ENTRIES_INSPECT_ON_EVICT then |s| else TRIED_ENTRIES_INSPECT_ON_EVICT
  }

  /** Draw i chooses among the entries from place i on. */
  predicate DrawsFit(s: seq<int>, draws: seq<nat>) {
    |draws| <= |s| && forall i :: 0 <= i < |draws| ==> draws[i] < |s| - i
  }

  /** The bucket after exchanging entry i with the drawn one, for each draw in turn. */
  function Shuffled(s: seq<int>, draws: seq<nat>): (r: seq<int>)
    requires DrawsFit(s, draws)
    ensures |r| == |s|
  {
    if draws == [] then s
    else
      var i := |draws| - 1;
      var t := Shuffled(s, draws[..i]);
      t[draws[i] + i := t[i]][i := t[draws[i] + i]]
  }

  lemma {:induction false} ShuffledEntries(s: seq<int>, draws: seq<nat>)
    requires DrawsFit(s, draws) && Distinct(s)
    ensures Distinct(Shuffled(s, draws)) && forall k :: k in Shuffled(s, draws) <==> k in s
  {
    if draws != [] {
      var i := |draws| - 1;
      ShuffledEntries(s, draws[..i]);
      SwapEntries(Shuffled(s, draws[..i]), i, draws[i] + i);
    }
  }

  /** Of the first n entries, best is the first one that was least recently successful. */
  ghost predicate FirstOldest(peers: Peers, s: seq<int>, n: nat, best: int) {
    && 0 <= best < n <= |s|
    && (forall i :: 0 <= i < n ==> NotLater(peers, s[best], s[i]))
    && (forall i :: 0 <= i < best ==> !NotLater(peers, s[i], s[best]))
  }

  lemma OldestStep(peers: Peers, s: seq<int>, i: nat, best: int, pos: nat)
    requires i <= pos < |s| && forall k :: 0 <= k < |s| ==> s[k] in peers
    requires i > 0 ==> FirstOldest(peers, s, i, best)
    ensures var t := s[pos := s[i]][i := s[pos]];
            FirstOldest(peers, t, i + 1,
                        if i == 0 || peers[s[pos]].lastSuccess < peers[s[best]].lastSuccess then i else best)
  {
    var t := s[pos := s[i]][i := s[pos]];
    forall k | 0 <= k < i
      ensures t[k] == s[k]
    {
    }
  }

  lemma ShuffleNothing(s: seq<int>, draws: seq<nat>)
    ensures DrawsFit(s, draws[..0]) && Shuffled(s, draws[..0]) == s
  {
  }

  lemma ShuffleStep(s: seq<int>, draws: seq<nat>, i: nat)
    requires DrawsFit(s, draws) && i < |draws|
    ensures DrawsFit(s, draws[..i]) && DrawsFit(s, draws[..i + 1])
    ensures var t := Shuffled(s, draws[..i]);
            Shuffled(s, draws[..i + 1]) == t[draws[i] + i := t[i]][i := t[draws[i] + i]]
  {
    assert draws[..i + 1][..i] == draws[..i];
  }

  /** The wrong slot does come back: of two entries the second one is the older and is drawn first.  It moves to
      place 0, and slot 0 + 1 holds the other one. */
  lemma SlotMayBeWrong(peers: Peers)
    requires 1 in peers && 2 in peers && peers[2].lastSuccess < peers[1].lastSuccess
    ensures DrawsFit([1, 2], [1, 0]) && Inspected([1, 2]) == 2
    ensures var s := Shuffled([1, 2], [1, 0]); FirstOldest(peers, s, 2, 0) && s[0] == 2 && s[0 + 1] == 1
  {
    var first: seq<nat>, draws: seq<nat> := [1], [1, 0];
    assert first[..0] == [] && draws[..1] == first;
    assert Shuffled([1, 2], first[..0]) == [1, 2];
    assert Shuffled([1, 2], first) == [2, 1];
    assert Shuffled([1, 2], draws) == [2, 1];
  }

  ghost predicate NotLater(peers: Peers, a: int, b: int) {
    a in peers && b in peers && peers[a].lastSuccess <= peers[b].lastSuccess
  }

  method RandInt(n: int) returns (r: int)
    requires n > 0
    ensures 0 <= r < n
  {
    r :| 0 <= r < n;
  }

  /** Random draws for the inspected entries of a bucket. */
  method Draws(s: seq<int>) returns (draws: seq<nat>)
    ensures |draws| == Inspected(s) && DrawsFit(s, draws)
  {
    draws := [];
    for i := 0 to Inspected(s)
      invariant |draws| == i && DrawsFit(s, draws)
    {
      var r := RandInt(|s| - i);
      draws := draws + [r];
    }
  }

  method Pick<T>(s: set<T>) returns (x: T)
    requires |s| > 0
    ensures x in s
  {
    x :| x in s;
  }

  class Manager {
    const triedHash: TriedHash
    const newHash: (NetAddr, NetAddr) -> nat
    const routable: NetAddr -> bool

    var idCount: int
    var peers: Peers
    var addrs: map<NetAddr, int>
    var random: seq<int>
    var nTried: int
    var tried: seq<seq<int>>
    var nNew: int
    var news: seq<set<int>>

    /** All indexes agree; pending is an id whose next reference is counted already. */
    ghost predicate Inv(pending: Option<int>)
      reads this
    {
      && IdsBelow(peers, idCount)
      && RandomOk(peers, random)
      && AddrsOk(peers, addrs)
      && NewsOk(peers, news, pending)
      && TriedOk(peers, tried, triedHash)
      && CountsOk(peers, nTried, nNew)
    }

    ghost predicate Valid()
      reads this
    {
      Inv(None)
    }

    constructor (triedHash: TriedHash, newHash: (NetAddr, NetAddr) -> nat, routable: NetAddr -> bool)
      ensures Valid() && peers == map[]
      ensures this.triedHash == triedHash && this.newHash == newHash && this.routable == routable
    {
      this.triedHash, this.newHash, this.routable := triedHash, newHash, routable;
      idCount, peers, addrs, random := 0, map[], map[], [];
      nTried, tried := 0, seq(TRIED_BUCKET_COUNT, _ => []);
      nNew, news := 0, seq(NEW_BUCKET_COUNT, _ => {});
      new;
      assert TriedIds(peers) == {} && NewIds(peers) == {};
    }

    function NewBucket(p: Peer, source: NetAddr): (b: nat)
      ensures b < NEW_BUCKET_COUNT
    {
      newHash(p.Net(), source) % NEW_BUCKET_COUNT
    }

    // ---------- The random order and the address index ----------

    method SwapRandom(i: int, j: int)
      requires RandomOk(peers, random) && 0 <= i < |random| && 0 <= j < |random|
      modifies this`peers, this`random
      ensures RandomOk(peers, random) && Reordered(old(peers), peers)
      ensures random == old(random)[i := old(random)[j]][j := old(random)[i]]
    {
      if i == j {
        return;
      }
      var a, b := random[i], random[j];
      peers := peers[a := peers[a].(randomPos := j)];
      peers := peers[b := peers[b].(randomPos := i)];
      random := random[i := b][j := a];
    }

    method Create(address: Address, source: NetAddr) returns (id: int)
      requires RandomOk(peers, random) && AddrsOk(peers, addrs) && address.service.net !in addrs
      requires IdsBelow(peers, idCount)
      modifies this`idCount, this`peers, this`addrs, this`random
      ensures RandomOk(peers, random) && AddrsOk(peers, addrs) && IdsBelow(peers, idCount)
      ensures id == old(idCount) && id !in old(peers) && idCount == id + 1
      ensures peers == old(peers)[id := Peer(address, source, 0, 0, 0, 0, false, |old(random)|)]
      ensures addrs == old(addrs)[address.service.net := id]
    {
      id := idCount;
      idCount := idCount + 1;
      peers := peers[id := Peer(address, source, 0, 0, 0, 0, false, |random|)];
      addrs := addrs[address.service.net := id];
      random := random + [id];
    }

    /** Forget a peer that no bucket refers to any more. */
    method Delete(id: int)
      requires RandomOk(peers, random) && AddrsOk(peers, addrs) && id in peers
      modifies this`peers, this`addrs, this`random, this`nNew
      ensures RandomOk(peers, random) && AddrsOk(peers, addrs)
      ensures forall k :: k in peers <==> k in old(peers) && k != id
      ensures forall k :: k in peers ==> SameButPos(old(peers)[k], peers[k])
      ensures nNew == old(nNew) - 1
    {
      assert 0 <= peers[id].randomPos < |random| && random[peers[id].randomPos] == id;
      hide RandomOk, AddrsOk;
      SwapRandom(peers[id].randomPos, |random| - 1);
      ReorderedKeepsIndex(old(peers), peers, addrs, |TriedIds(old(peers))|, |NewIds(old(peers))|);
      assert random[|random| - 1] == id;
      DeleteKeeps(peers, random, addrs, id);
      random := random[..|random| - 1];
      addrs := addrs - {peers[id].Net()};
      peers := peers - {id};
      nNew := nNew - 1;
    }

    // ---------- The new buckets ----------

    /** Take an id out of a new bucket; forget it when that was the last reference. */
    method Release(id: int, b: nat, ghost pending: Option<int>)
      requires Inv(pending) && b < NEW_BUCKET_COUNT && id in news[b] && pending != Some(id)
      modifies this`peers, this`addrs, this`random, this`nNew, this`news
      ensures Inv(pending) && news == old(news)[b := old(news)[b] - {id}]
      ensures Released(old(peers), peers, id)
    {
      hide RandomOk, AddrsOk, NewsOk, TriedOk, Released, IdsBelow, SameButPos, NewIds, TriedIds;
      ghost var before := peers;
      NewShape(peers, news, pending);
      MemberIsNew(peers, news, pending, b, id);
      Unreference(id);
      ReleaseCounts(before, peers, id);
      ReleaseTried(before, peers, id, tried, triedHash, idCount);
      ReleaseKeeps(before, peers, id, b, news, pending);
      news := news[b := news[b] - {id}];
    }

    method Unreference(id: int)
      requires id in peers && RandomOk(peers, random) && AddrsOk(peers, addrs) && peers[id].refCount >= 1
      modifies this`peers, this`addrs, this`random, this`nNew
      ensures RandomOk(peers, random) && AddrsOk(peers, addrs)
      ensures Released(old(peers), peers, id)
      ensures nNew == old(nNew) - if old(peers)[id].refCount == 1 then 1 else 0
    {
      hide RandomOk, AddrsOk;
      CountDown(id);
      if peers[id].refCount == 0 {
        Delete(id);
      }
    }

    method CountDown(id: int)
      requires id in peers && RandomOk(peers, random) && AddrsOk(peers, addrs)
      modifies this`peers
      ensures peers == old(peers)[id := old(peers)[id].(refCount := old(peers)[id].refCount - 1)]
      ensures RandomOk(peers, random) && AddrsOk(peers, addrs)
    {
      peers := peers[id := peers[id].(refCount := peers[id].refCount - 1)];
    }

    /** A terrible entry of the bucket, if there is one. */
    method FindTerrible(b: nat, now: int) returns (found: bool, victim: int)
      requires b < |news| && forall id :: id in news[b] ==> id in peers
      ensures found ==> victim in news[b] && IsTerrible(peers[victim], now)
      ensures !found ==> forall id :: id in news[b] ==> !IsTerrible(peers[id], now)
    {
      hide IsTerrible;
      var rest := news[b];
      while |rest| > 0
        invariant rest <= news[b]
        invariant forall id :: id in news[b] && id !in rest ==> !IsTerrible(peers[id], now)
      {
        victim := Pick(rest);
        if IsTerrible(peers[victim], now) {
          return true, victim;
        }
        rest := rest - {victim};
      }
      found, victim := false, -1;
    }

    /** The least recently seen of four entries drawn at random, with repetition. */
    method OldestOfFour(b: nat) returns (oldest: int, ghost drawn: seq<int>)
      requires b < |news| && |news[b]| > 0 && forall id :: id in news[b] ==> id in peers
      ensures |drawn| == 4 && oldest in drawn && forall id :: id in drawn ==> id in news[b]
      ensures forall id :: id in drawn ==> peers[oldest].address.time <= peers[id].address.time
    {
      oldest := Pick(news[b]);
      drawn := [oldest];
      for k := 1 to 4
        invariant |drawn| == k && oldest in drawn && forall id :: id in drawn ==> id in news[b]
        invariant forall id :: id in drawn ==> peers[oldest].address.time <= peers[id].address.time
      {
        var id := Pick(news[b]);
        if peers[id].address.time < peers[oldest].address.time {
          oldest := id;
        }
        drawn := drawn + [id];
      }
    }

    /** Make room in a new bucket: remove a terrible entry, or else the oldest of four.  Tried peers, the pending one
        and all but the removed one are kept. */
    method ShrinkNew(b: nat, now: int, ghost pending: Option<int>)
      returns (r: int, ghost victim: int, ghost drawn: seq<int>)
      requires Inv(pending) && b < NEW_BUCKET_COUNT && |news[b]| > 0
      requires pending.Some? ==> pending.value !in news[b]
      modifies this`peers, this`addrs, this`random, this`nNew, this`news
      ensures Inv(pending) && victim in old(news)[b] && news == old(news)[b := old(news)[b] - {victim}]
      ensures Released(old(peers), peers, victim)
      ensures r == 0 <==> exists id :: id in old(news)[b] && IsTerrible(old(peers)[id], now)
      ensures if r == 0 then IsTerrible(old(peers)[victim], now) else
                && r == 1 && |drawn| == 4 && victim in drawn && (forall id :: id in drawn ==> id in old(news)[b])
                && forall id :: id in drawn ==> old(peers)[victim].address.time <= old(peers)[id].address.time
    {
      assert MembersAreNew(peers, news[b]);
      hide Inv, RandomOk, AddrsOk, NewsOk, TriedOk, CountsOk, IdsBelow, Released, SameButPos, IsTerrible;
      var found, terrible := FindTerrible(b, now);
      if found {
        r, victim, drawn := 0, terrible, [];
        Release(terrible, b, pending);
      } else {
        var oldest;
        oldest, drawn := OldestOfFour(b);
        r, victim := 1, oldest;
        Release(oldest, b, pending);
      }
    }

    // ---------- Learning addresses ----------

    /** All that Inv says, but for the reference count of one id. */
    ghost predicate InvBut(id: int)
      reads this
    {
      && IdsBelow(peers, idCount)
      && RandomOk(peers, random)
      && AddrsOk(peers, addrs)
      && NewsOkBut(peers, news, id) && peers[id].refCount < NEW_BUCKETS_PER_ADDRESS
      && TriedOk(peers, tried, triedHash)
      && CountsOk(peers, nTried, nNew)
    }

    /** Count one more reference. */
    method CountUp(id: int)
      requires InvBut(id)
      modifies this`peers
      ensures Inv(Some(id))
      ensures peers == old(peers)[id := old(peers)[id].(refCount := old(peers)[id].refCount + 1)]
    {
      assert id in peers && !peers[id].inTried;
      hide RandomOk, AddrsOk, IdsBelow, NewsOk, NewsOkBut, TriedOk, NewIds, TriedIds;
      var p := peers[id].(refCount := peers[id].refCount + 1);
      CountReference(peers, id, p, news);
      RefCountKeeps(peers, id, p.refCount, random, addrs, idCount, tried, triedHash);
      peers := peers[id := p];
    }

    /** Count a reference to a bucket the id is not in, and see that the bucket has room. */
    method MakeRoom(id: int, b: nat, now: int) returns (ghost removed: set<int>)
      requires InvBut(id) && b < NEW_BUCKET_COUNT && id !in news[b]
      modifies this`peers, this`addrs, this`random, this`nNew, this`news
      ensures Inv(Some(id)) && id !in news[b] && |news[b]| < NEW_BUCKET_SIZE
      ensures removed != {} ==> |old(news)[b]| == NEW_BUCKET_SIZE
      ensures Cleared(old(news), news, b)
      ensures Kept(old(peers), peers, removed) && id in peers && !peers[id].inTried
      ensures peers[id].refCount == old(peers)[id].refCount + 1 && peers[id].address == old(peers)[id].address
    {
      hide RandomOk, AddrsOk, NewsOk, NewsOkBut, TriedOk, CountsOk, IdsBelow, IsTerrible, Kept, Released, Cleared;
      NewShapeBut(peers, news, id);
      ghost var before, was := peers, news;
      CountUp(id);
      ghost var counted := peers;
      removed := {};
      if |news[b]| == NEW_BUCKET_SIZE {
        ghost var r, victim, drawn := ShrinkNew(b, now, Some(id));
        MemberIsNew(counted, old(news), Some(id), b, victim);
        ShrunkKeeps(before, counted, peers, id, victim);
        ClearedBy(was, news, b, victim);
        removed := if counted[victim].refCount == 1 then {victim} else {};
      } else {
        CountedKeeps(before, counted, id);
        ClearedBy(was, news, b, id);
      }
    }

    /** Put an id into one more bucket, after making room there. */
    method Reference(id: int, b: nat, now: int) returns (ghost removed: set<int>)
      requires InvBut(id) && b < NEW_BUCKET_COUNT && id !in news[b]
      modifies this`peers, this`addrs, this`random, this`nNew, this`news
      ensures Valid() && id in peers && id in news[b]
      ensures removed != {} ==> |old(news)[b]| == NEW_BUCKET_SIZE
      ensures Joined(old(news), news, b, id)
      ensures Kept(old(peers), peers, removed)
      ensures peers[id].refCount == old(peers)[id].refCount + 1 && peers[id].address == old(peers)[id].address
    {
      hide RandomOk, AddrsOk, TriedOk, CountsOk, IdsBelow, NewsOkBut, NewsOk, Kept, Cleared, Joined;
      NewShapeBut(peers, news, id);
      ghost var was := news;
      removed := MakeRoom(id, b, now);
      NewShape(peers, news, Some(id));
      InsertKeeps(peers, id, b, news);
      JoinedBy(was, news, b, id);
      news := news[b := news[b] + {id}];
    }

    /** Overwrite what no index depends on. */
    method Update(id: int, p: Peer)
      requires Valid() && id in peers && SameTables(peers[id], p)
      modifies this`peers
      ensures Valid() && peers == old(peers)[id := p]
    {
      UpdateKeeps(peers, id, p, addrs, random, news, tried, triedHash, nTried, nNew);
      hide RandomOk, AddrsOk, NewsOk, TriedOk, CountsOk;
      peers := peers[id := p];
    }

    method CreateNew(a: Address, source: NetAddr, penalty: int) returns (id: int)
      requires Valid() && a.service.net !in addrs
      modifies this`idCount, this`peers, this`addrs, this`random, this`nNew
      ensures InvBut(id) && id == old(idCount) && id !in old(peers)
      ensures peers == old(peers)[id := Newcomer(a, source, penalty, |old(random)|)]
      ensures addrs == old(addrs)[a.service.net := id]
      ensures |news| == NEW_BUCKET_COUNT && forall b :: 0 <= b < |news| ==> id !in news[b]
    {
      hide NewsOk, NewsOkBut, TriedOk, RandomOk, AddrsOk, IdsBelow, NewIds, TriedIds;
      ghost var before := peers;
      NewShape(peers, news, None);
      id := Create(a.(time := Max(0, a.time - penalty)), source);
      Stranger(before, id, peers[id], news, tried, triedHash);
      nNew := nNew + 1;
    }

    /** Add_.  Whatever the message, at most one peer is forgotten, and never a tried one.  A known peer joins the
        bucket that belongs to its address and the source exactly when the message is news, the dice allow it and it is
        not there yet. */
    method Add(a: Address, source: NetAddr, penalty: int, now: int)
      returns (isNew: bool, ghost removed: set<int>, ghost dice: int)
      requires Valid()
      modifies this
      ensures Valid()
      ensures isNew <==> routable(a.service.net) && a.service.net !in old(addrs)
      ensures !routable(a.service.net) ==> unchanged(this)
      ensures isNew ==> Kept(old(peers)[old(idCount) := Newcomer(a, source, penalty, |old(random)|)], peers, removed)
                        && old(idCount) in peers && peers[old(idCount)].refCount == 1
                        && peers[old(idCount)].address.time == (if a.time > penalty then a.time - penalty else 0)
                        && Joined(old(news), news, NewBucket(peers[old(idCount)], source), old(idCount))
      ensures routable(a.service.net) && !isNew ==>
                var id := old(addrs)[a.service.net];
                var p := Refresh(old(peers)[id], a, penalty, now);
                var b := NewBucket(p, source);
                && id in peers && (!Uninformative(p, a) ==> 0 <= dice < Factor(p.refCount)) && |old(news)| == 256
                && if !Uninformative(p, a) && dice == 0 && id !in old(news)[b]
                   then Kept(old(peers)[id := p], peers, removed) && Joined(old(news), news, b, id)
                        && peers[id].refCount == p.refCount + 1
                   else peers == old(peers)[id := p] && news == old(news)
    {
      hide RandomOk, TriedOk, CountsOk, IdsBelow, NewsOk, Kept, NewsOkBut, Joined;
      NewShape(peers, news, None);
      isNew, removed, dice := false, {}, 0;
      if !routable(a.service.net) {
        return;
      }
      if a.service.net in addrs {
        var id := addrs[a.service.net];
        var p := Refresh(peers[id], a, penalty, now);
        Update(id, p);
        if Uninformative(p, a) {
          return;
        }
        MayReference(peers, id, news);
        var draw := RandInt(Factor(p.refCount));
        dice := draw;
        if Factor(p.refCount) > 1 && draw != 0 {
          return;
        }
        var b := NewBucket(p, source);
        if id !in news[b] {
          removed := Reference(id, b, now);
        }
      } else {
        isNew := true;
        var id := CreateNew(a, source, penalty);
        var b := NewBucket(peers[id], source);
        removed := Reference(id, b, now);
      }
    }

    // ---------- The tried table ----------

    /** id has left the new table and has not arrived in the tried table yet. */
    ghost predicate Moving(id: int)
      reads this
    {
      && IdsBelow(peers, idCount)
      && RandomOk(peers, random)
      && AddrsOk(peers, addrs)
      && NewsOkBut(peers, news, id) && id in peers && !peers[id].inTried
      && InNone(news, id)
      && TriedOk(peers, tried, triedHash)
      && CountsOk(peers, nTried, nNew + 1)
    }

    /** Take an id out of all new buckets. */
    method EraseAll(id: int)
      requires NewsOkBut(peers, news, id)
      modifies this`peers, this`news
      ensures NewsOkBut(peers, news, id) && id in old(peers) && id in peers
      ensures peers == old(peers)[id := old(peers)[id].(refCount := peers[id].refCount)]
      ensures |news| == |old(news)| && forall b :: 0 <= b < |news| ==> news[b] == old(news)[b] - {id}
    {
      assert id in peers;
      hide NewsOkBut, ErasedTo;
      ghost var before, was := peers, news;
      ErasedNone(was, id);
      for b := 0 to |news|
        invariant |news| == |was| && NewsOkBut(peers, news, id)
        invariant id in peers && peers == before[id := before[id].(refCount := peers[id].refCount)]
        invariant ErasedTo(was, news, id, b)
      {
        ghost var mid := news;
        EraseFrom(id, b);
        ErasedNext(was, mid, news, id, b);
      }
      ErasedAll(was, news, id);
    }

    method EraseFrom(id: int, b: nat)
      requires NewsOkBut(peers, news, id) && id in peers && b < |news|
      modifies this`peers, this`news
      ensures NewsOkBut(peers, news, id) && id in peers && news == old(news)[b := old(news)[b] - {id}]
      ensures peers == old(peers)[id := old(peers)[id].(refCount := peers[id].refCount)]
    {
      hide NewsOkBut;
      if id in news[b] {
        ClearKeeps(peers, id, b, news);
        peers := peers[id := peers[id].(refCount := peers[id].refCount - 1)];
        news := news[b := news[b] - {id}];
      } else {
        assert news[b] - {id} == news[b];
      }
    }

    method ClearNew(id: int)
      requires Valid() && id in peers && !peers[id].inTried
      modifies this`peers, this`news, this`nNew
      ensures Moving(id) && |news| == |old(news)|
      ensures peers == old(peers)[id := old(peers)[id].(refCount := 0)]
      ensures forall b :: 0 <= b < |news| ==> news[b] == old(news)[b] - {id}
    {
      hide RandomOk, AddrsOk, IdsBelow, NewsOk, NewsOkBut, TriedOk, NewIds, TriedIds;
      MayReference(peers, id, news);
      EraseAll(id);
      RefCountKeeps(old(peers), id, peers[id].refCount, random, addrs, idCount, tried, triedHash);
      PromoteKeepsNews(peers, id, news);
      nNew := nNew - 1;
    }

    /** There is room in the tried bucket. */
    method Promote(id: int)
      requires Moving(id) && |tried| == TRIED_BUCKET_COUNT
      requires |tried[TriedBucket(triedHash, peers[id])]| < TRIED_BUCKET_SIZE
      modifies this`peers, this`tried, this`nTried
      ensures Valid() && peers == old(peers)[id := old(peers)[id].(inTried := true)]
    {
      hide RandomOk, AddrsOk, IdsBelow, NewsOk, NewsOkBut, InNone, TriedOk, NewIds, TriedIds;
      PromoteKeepsNews(peers, id, news);
      PromoteKeepsTried(peers, id, tried, triedHash);
      PromoteCounts(peers, id);
      IndexKeeps(peers, id, peers[id].(inTried := true), random, addrs, idCount);
      var b := TriedBucket(triedHash, peers[id]);
      tried := tried[b := tried[b] + [id]];
      nTried := nTried + 1;
      peers := peers[id := peers[id].(inTried := true)];
    }

    /** A slot of the tried bucket to replace, or -1 if there is none.  The first few entries are shuffled by the draws,
        and best is the first least recently successful one of them; the slot is where that one was drawn from.  So
        the slot holds it if and only if it was drawn from its own place. */
    method SelectTried(b: nat, draws: seq<nat>) returns (slot: int, ghost best: int)
      requires b < |tried| && Distinct(tried[b]) && forall id :: id in tried[b] ==> id in peers && id != -1
      requires |draws| == Inspected(tried[b]) && DrawsFit(tried[b], draws)
      modifies this`tried
      ensures tried == old(tried)[b := Shuffled(old(tried)[b], draws)]
      ensures if tried[b] == [] then slot == -1
              else FirstOldest(peers, tried[b], Inspected(tried[b]), best) && slot == best + draws[best] < |tried[b]|
      ensures tried[b] != [] ==> (tried[b][slot] == tried[b][best] <==> draws[best] == 0)
    {
      hide FirstOldest, Shuffled;
      slot, best := -1, -1;
      var oldest, i := -1, 0;
      ghost var was := tried[b];
      ShuffleNothing(was, draws);
      while i < TRIED_ENTRIES_INSPECT_ON_EVICT && i < |tried[b]|
        invariant |tried| == |old(tried)| && 0 <= i <= |draws| && DrawsFit(was, draws[..i])
        invariant tried == old(tried)[b := Shuffled(was, draws[..i])] && |tried[b]| == |was|
        invariant if i == 0 then slot == oldest == -1
                  else 0 <= best < i && FirstOldest(peers, tried[b], i, best)
                       && oldest == tried[b][best] && oldest != -1
                       && slot == best + draws[best]
      {
        var pos := draws[i] + i;
        ghost var before := tried[b];
        ShuffledEntries(was, draws[..i]);
        ShuffleStep(was, draws, i);
        assert forall k :: 0 <= k < |before| ==> before[k] in before;
        OldestStep(peers, before, i, best, pos);
        var id := tried[b][pos];
        tried := tried[b := tried[b][pos := tried[b][i]][i := id]];
        if oldest == -1 || peers[id].lastSuccess < peers[oldest].lastSuccess {
          oldest, slot, best := id, pos, i;
        }
        i := i + 1;
      }
      assert draws[..i] == draws;
      ShuffledEntries(was, draws);
    }

    /** The tried bucket is full: one of its peers goes back to the new table, to the bucket of its source if there is
        room and else to the one the promoted peer came from. */
    method Exchange(id: int, origin: nat) returns (ghost evicted: int)
      requires Moving(id) && |tried| == TRIED_BUCKET_COUNT && |news| == NEW_BUCKET_COUNT
      requires |tried[TriedBucket(triedHash, peers[id])]| == TRIED_BUCKET_SIZE
      requires origin < NEW_BUCKET_COUNT && |news[origin]| < NEW_BUCKET_SIZE
      modifies this`peers, this`tried, this`news, this`nNew
      ensures Valid() && evicted in old(peers) && old(peers)[evicted].inTried
      ensures evicted in old(tried)[TriedBucket(triedHash, old(peers)[id])]
      ensures peers == Exchanged(old(peers), id, evicted)
      ensures var home := NewBucket(old(peers)[evicted], old(peers)[evicted].source);
              var b := if |old(news)[home]| < NEW_BUCKET_SIZE then home else origin;
              news == old(news)[b := old(news)[b] + {evicted}]
    {
      hide RandomOk, AddrsOk, NewsOk, NewsOkBut, InNone, TriedOk, NewIds, TriedIds, IdsBelow;
      var b := TriedBucket(triedHash, peers[id]);
      var slot := Slot(b);
      var e := tried[b][slot];
      evicted := e;
      ReplaceKeepsTried(peers, id, slot, tried, triedHash);
      ReplaceCounts(peers, id, e);
      var home := NewBucket(peers[e], peers[e].source);
      var target := if |news[home]| < NEW_BUCKET_SIZE then home else origin;
      ExchangeKeeps(peers, id, e, random, addrs, idCount, news, target);
      news := news[target := news[target] + {e}];
      nNew := nNew + 1;
      tried := tried[b := tried[b][slot := id]];
      peers := Exchanged(peers, id, e);
    }

    /** SelectTried on a bucket that is not empty keeps the tried table in order. */
    method Slot(b: nat) returns (slot: int)
      requires IdsBelow(peers, idCount) && TriedOk(peers, tried, triedHash) && b < TRIED_BUCKET_COUNT && tried[b] != []
      modifies this`tried
      ensures TriedOk(peers, tried, triedHash)
      ensures |tried| == TRIED_BUCKET_COUNT && |tried[b]| == |old(tried)[b]| && 0 <= slot < |tried[b]|
      ensures forall id :: id in tried[b] <==> id in old(tried)[b]
    {
      ghost var best, was := 0, tried;
      assert TriedBucketOk(peers, tried[b], b, triedHash);
      var draws := Draws(tried[b]);
      slot, best := SelectTried(b, draws);
      ShuffledEntries(was[b], draws);
      forall c: nat | c < |tried|
        ensures TriedBucketOk(peers, tried[c], c, triedHash)
      {
        assert TriedBucketOk(peers, was[c], c, triedHash);
      }
    }

    /** Move a peer from the new to the tried table; at most one other peer moves the other way. */
    method MakeTried(id: int, origin: nat) returns (ghost evicted: set<int>)
      requires Valid() && origin < NEW_BUCKET_COUNT && id in news[origin]
      modifies this`peers, this`tried, this`nTried, this`news, this`nNew
      ensures Valid() && id in old(peers)
      ensures Moved(old(peers), peers, id, evicted)
      ensures evicted != {} <==> |old(tried)[TriedBucket(triedHash, old(peers)[id])]| == TRIED_BUCKET_SIZE
      ensures evicted <= Members(old(tried)[TriedBucket(triedHash, old(peers)[id])])
    {
      assert |news| == NEW_BUCKET_COUNT && |news[origin]| <= NEW_BUCKET_SIZE;
      hide RandomOk, AddrsOk, NewsOk, NewsOkBut, InNone, TriedOk, CountsOk, IdsBelow, Moved, Exchanged;
      MemberIsNew(peers, news, None, origin, id);
      TriedShape(peers, tried, triedHash);
      var b := TriedBucket(triedHash, peers[id]);
      ClearNew(id);
      if |tried[b]| < TRIED_BUCKET_SIZE {
        Promote(id);
        evicted := {};
        PromoteMoves(old(peers), id);
      } else {
        ghost var e := Exchange(id, origin);
        evicted := {e};
        ExchangeMoves(old(peers), id, e);
      }
    }

    // ---------- What the node reports ----------

    /** A peer is known under this very service, with the same port. */
    predicate Knows(service: Service)
      reads this
    {
      service.net in addrs && addrs[service.net] in peers && peers[addrs[service.net]].address.service == service
    }

    /** Look for a new bucket with the id, from a random one on. */
    method FindBucket(id: int) returns (bucket: int)
      requires |news| == NEW_BUCKET_COUNT
      ensures bucket == -1 <==> InNone(news, id)
      ensures bucket != -1 ==> 0 <= bucket < NEW_BUCKET_COUNT && id in news[bucket]
    {
      var start := RandInt(NEW_BUCKET_COUNT);
      for n := 0 to NEW_BUCKET_COUNT
        invariant forall m :: 0 <= m < n ==> id !in news[Turn(start, m)]
      {
        var b := Turn(start, n);
        if id in news[b] {
          return b;
        }
      }
      forall b: nat | b < |news|
        ensures id !in news[b]
      {
        var m := (b - start) % NEW_BUCKET_COUNT;
        assert Turn(start, m) == b;
      }
      bucket := -1;
    }

    /** Good_: the peer ends up in the tried table. */
    method Good(service: Service, time: int) returns (ghost evicted: set<int>)
      requires Valid()
      modifies this
      ensures Valid()
      ensures !old(Knows(service)) ==> unchanged(this)
      ensures old(Knows(service)) ==>
                var id := old(addrs)[service.net];
                var p := Succeeded(old(peers)[id], time);
                && addrs == old(addrs)
                && (if p.inTried then peers == old(peers)[id := p] else Moved(old(peers)[id := p], peers, id, evicted))
    {
      hide RandomOk, AddrsOk, TriedOk, CountsOk, IdsBelow, NewsOk, Moved;
      evicted := {};
      if !Knows(service) {
        return;
      }
      var id := addrs[service.net];
      Update(id, Succeeded(peers[id], time));
      if peers[id].inTried {
        return;
      }
      ghost var home := SomeBucket(peers, news, id);
      NewShape(peers, news, None);
      var bucket := FindBucket(id);
      assert bucket != -1;
      evicted := MakeTried(id, bucket);
    }

    method Attempt(service: Service, time: int)
      requires Valid()
      modifies this`peers
      ensures Valid()
      ensures peers == if old(Knows(service))
                       then var id := addrs[service.net]; var p := old(peers)[id];
                            old(peers)[id := p.(lastTry := time, attempts := p.attempts + 1)]
                       else old(peers)
    {
      if Knows(service) {
        var id := addrs[service.net];
        Update(id, peers[id].(lastTry := time, attempts := peers[id].attempts + 1));
      }
    }

    method Connected(service: Service, time: int)
      requires Valid()
      modifies this`peers
      ensures Valid()
      ensures peers == if old(Knows(service)) && time - old(peers)[addrs[service.net]].address.time > 20 * MINUTE
                       then var id := addrs[service.net]; var p := old(peers)[id];
                            old(peers)[id := p.(address := p.address.(time := time))]
                       else old(peers)
    {
      if Knows(service) {
        var id := addrs[service.net];
        if time - peers[id].address.time > 20 * MINUTE {
          Update(id, peers[id].(address := peers[id].address.(time := time)));
        }
      }
    }

    /** A random sample of the known peers, without repetition. */
    method GetAddr() returns (sample: seq<Address>)
      requires Valid()
      modifies this`peers, this`random
      ensures Valid() && Reordered(old(peers), peers) && |random| == |old(random)|
      ensures |sample| == SampleSize(|random|) <= |random|
      ensures Sampled(old(peers), random, sample)
      ensures forall i, j :: 0 <= i < j < |sample| ==> sample[i].service.net != sample[j].service.net
    {
      hide RandomOk, Reordered, Sampled, AddrsOk, TriedOk, CountsOk, IdsBelow, NewsOk;
      sample := [];
      ghost var before := peers;
      SampleNothing(peers, random);
      for n := 0 to SampleSize(|random|)
        invariant |random| == |old(random)| && |sample| == n
        invariant RandomOk(peers, random) && Reordered(before, peers)
        invariant Sampled(before, random, sample)
      {
        var pos := RandInt(|random| - n);
        ghost var was, mid := random, peers;
        SwapRandom(n, pos + n);
        ReorderedTwice(before, mid, peers);
        SampledNext(before, peers, was, random, sample);
        sample := sample + [peers[random[n]].address];
      }
      ReorderedKeepsIndex(before, peers, addrs, nTried, nNew);
      ReorderedKeepsBuckets(before, peers, news, None, tried, triedHash, idCount);
      SampledAfter(before, peers, random, sample);
      SampleIsDistinct(peers, random, addrs, sample);
    }
  }

  /** What the node does with its peer manager. */
  datatype Event =
    | Heard(a: Address, source: NetAddr, penalty: int, now: int)
    | Succeeds(service: Service, time: int)
    | Attempted(service: Service, time: int)
    | StillConnected(service: Service, time: int)
    | Sample

  /** Every sequence of events keeps the indexes in agreement and the tables within their bounds. */
  method Run(m: Manager, events: seq<Event>)
    requires m.Valid()
    modifies m
    ensures m.Valid()
    ensures |m.random| == |m.peers| == m.nTried + m.nNew
    ensures m.nTried <= TRIED_BUCKET_COUNT * TRIED_BUCKET_SIZE && m.nNew <= NEW_BUCKET_COUNT * NEW_BUCKET_SIZE
  {
    hide RandomOk, AddrsOk, TriedOk, CountsOk, IdsBelow, NewsOk, Kept, Moved, Sampled, Reordered;
    for i := 0 to |events|
      invariant m.Valid()
    {
      match events[i]
      case Heard(a, source, penalty, now) => {
        var isNew, removed, dice := m.Add(a, source, penalty, now);
      }
      case Succeeds(service, time) => {
        ghost var evicted := m.Good(service, time);
      }
      case Attempted(service, time) => m.Attempt(service, time);
      case StillConnected(service, time) => m.Connected(service, time);
      case Sample => {
        var sample := m.GetAddr();
      }
    }
    TablesAreBounded(m.peers, m.random, m.news, m.tried, m.triedHash, m.nTried, m.nNew);
    RandomSize(m.peers, m.random);
  }
}
