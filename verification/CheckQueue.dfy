/** CCheckQueue: a pool of worker threads and one master that share a stack of checks under a mutex.
    A step of the model is one critical section, from taking the mutex to releasing it; what a thread does in
    between, running the checks of its batch, happens outside and shows up in its next critical section.
    Waking up from a condition variable may also happen without a notification. */
module CheckQueue {
  import opened Primitives
  import opened Arithmetic

  /** Where a thread is between two of its critical sections. */
  datatype Local<T> =
    | Outside                          // not in Loop
    | Asleep(notified: bool)           // waiting on its condition variable
    | Busy(batch: seq<T>, ok: bool)    // running a batch; ok is the status it started from

  /** The fields guarded by the mutex. */
  datatype Shared<T> = Shared(queue: seq<T>, idle: int, total: int, allOk: bool, todo: int)

  /** Thread 0 is the master.  added and done are history: the checks added since the last Wait returned, and those
      of them whose batch has been handed back. */
  datatype State<T> = State(shared: Shared<T>, threads: seq<Local<T>>, added: seq<T>, done: multiset<T>)

  /** The constructor argument and the quit flag, which nothing in the class sets. */
  datatype Config = Config(batchSize: nat, quit: bool)

  function AllPass<T>(run: T -> bool, checks: seq<T>): bool {
    forall i :: 0 <= i < |checks| ==> run(checks[i])
  }

  function Max(a: int, b: int): int { if a < b then b else a }
  function Min(a: int, b: int): int { if a < b then a else b }

  // ---------- One critical section ----------

  /** Handing back a batch, registering on the first round, or returning from the wait. */
  function CleanUp<T>(run: T -> bool, s: Shared<T>, local: Local<T>): Shared<T> {
    match local
    case Busy(batch, ok) => s.(allOk := s.allOk && ok && AllPass(run, batch), todo := s.todo - |batch|)
    case Outside => s.(total := s.total + 1)
    case Asleep(_) => s.(idle := s.idle - 1)
  }

  function BatchLength<T>(config: Config, s: Shared<T>): int {
    Max(1, Min(config.batchSize, if s.total + s.idle + 1 > 0 then |s.queue| / (s.total + s.idle + 1) else 0))
  }

  /** The n checks at the back of the queue, last one first. */
  function Popped<T>(queue: seq<T>, n: nat): seq<T>
    requires n <= |queue|
  {
    if n == 0 then [] else [queue[|queue| - 1]] + Popped(queue[..|queue| - 1], n - 1)
  }

  datatype Outcome<T> = Outcome(shared: Shared<T>, local: Local<T>, returned: Option<bool>)

  /** Leave, go to sleep, or take a batch. */
  function Settle<T>(config: Config, s: Shared<T>, master: bool): Outcome<T> {
    if s.queue == [] then
      if (master || config.quit) && s.todo == 0 then
        Outcome(s.(total := s.total - 1, allOk := if master then true else s.allOk), Outside, Some(s.allOk))
      else
        Outcome(s.(idle := s.idle + 1), Asleep(false), None)
    else
      var n := Min(BatchLength(config, s), |s.queue|);
      Outcome(s.(queue := s.queue[..|s.queue| - n]), Busy(Popped(s.queue, n), s.allOk), None)
  }

  function Section<T>(config: Config, run: T -> bool, s: Shared<T>, local: Local<T>, master: bool): Outcome<T> {
    Settle(config, CleanUp(run, s, local), master)
  }

  /** The worker that hands back the last check wakes the master. */
  predicate NotifiesMaster<T>(run: T -> bool, s: Shared<T>, local: Local<T>, master: bool) {
    local.Busy? && !master && CleanUp(run, s, local).todo == 0
  }

  function Wake<T>(local: Local<T>): Local<T> {
    if local.Asleep? then Asleep(true) else local
  }

  /** nTotal + nIdle + 1 is positive and a batch never exceeds the queue, so the guards above never matter. */
  lemma BatchFits<T>(config: Config, s: Shared<T>)
    requires s.queue != [] && s.total >= 0 && s.idle >= 0
    ensures 1 <= BatchLength(config, s) <= |s.queue|
  {
    var d := s.total + s.idle + 1;
    assert |s.queue| / d <= |s.queue|;
  }

  /** How much work a thread takes, of a queue of the given length: never more than the batch size, its share among the
      threads with one spare share for each that is idle, and as much of these as there is. */
  ghost predicate FairShare(n: int, config: Config, queued: int, total: int, idle: int) {
    && 1 <= n <= queued
    && (config.batchSize >= 1 ==> n <= config.batchSize)
    && (n == 1 || n * (total + idle + 1) <= queued)
    && (n >= config.batchSize || (n + 1) * (total + idle + 1) > queued)
  }

  lemma {:induction false} PoppedLength<T>(queue: seq<T>, n: nat)
    requires n <= |queue|
    ensures |Popped(queue, n)| == n
  {
    if n > 0 {
      PoppedLength(queue[..|queue| - 1], n - 1);
    }
  }

  lemma SettleTakesShare<T>(config: Config, c: Shared<T>, master: bool)
    requires c.total >= 0 && c.idle >= 0
    ensures var out := Settle(config, c, master);
            out.local.Busy? ==>
              && FairShare(|out.local.batch|, config, |c.queue|, c.total, c.idle)
              && |out.shared.queue| == |c.queue| - |out.local.batch|
  {
    if c.queue != [] {
      var d, l := c.total + c.idle + 1, |c.queue|;
      BatchFits(config, c);
      QuotientBounds(l, d);
      var n := BatchLength(config, c);
      PoppedLength(c.queue, n);
      hide Popped;
      if n < config.batchSize {
        MulLe(l / d + 1, n + 1, d);
      }
      if n > 1 {
        MulLe(n, l / d, d);
      }
    }
  }

  /** Whoever takes a batch in a critical section takes a fair share. */
  lemma SectionTakesShare<T>(config: Config, run: T -> bool, s: Shared<T>, local: Local<T>, master: bool)
    requires CleanUp(run, s, local).total >= 0 && CleanUp(run, s, local).idle >= 0
    ensures var out := Section(config, run, s, local, master);
            out.local.Busy? ==> FairShare(|out.local.batch|, config, |s.queue|, out.shared.total, out.shared.idle)
  {
    SettleTakesShare(config, CleanUp(run, s, local), master);
    hide FairShare, BatchLength, Popped, AllPass;
  }

  // ---------- The transition system ----------

  predicate IsMaster(i: nat) {
    i == 0
  }

  function AfterSection<T>(config: Config, run: T -> bool, s: State<T>, i: nat): State<T>
    requires i < |s.threads|
  {
    var local := s.threads[i];
    var o := Section(config, run, s.shared, local, IsMaster(i));
    var woken := if NotifiesMaster(run, s.shared, local, IsMaster(i)) && |s.threads| > 0
                 then s.threads[0 := Wake(s.threads[0])] else s.threads;
    var done := if local.Busy? then s.done + multiset(local.batch) else s.done;
    if IsMaster(i) && o.returned.Some?
    then State(o.shared, woken[i := o.local], [], multiset{})
    else State(o.shared, woken[i := o.local], s.added, done)
  }

  /** Thread i runs a critical section. */
  ghost predicate SectionStep<T>(config: Config, run: T -> bool, s: State<T>, s': State<T>, i: nat) {
    i < |s.threads| && s' == AfterSection(config, run, s, i)
  }

  /** No worker waits for a notification. */
  ghost predicate NoSleeper<T>(threads: seq<Local<T>>) {
    forall i :: 0 < i < |threads| ==> threads[i] != Asleep(false)
  }

  /** notify_one wakes one sleeping worker if there is any, notify_all every one. */
  ghost predicate WorkersNotified<T>(before: seq<Local<T>>, after: seq<Local<T>>, n: nat) {
    && |before| == |after|
    && (forall i :: 0 <= i < |before| ==> after[i] == before[i] || (i > 0 && after[i] == Wake(before[i])))
    && (n > 1 ==> forall i :: 0 < i < |before| ==> after[i] == Wake(before[i]))
    && (n == 1 ==> forall i, j :: 0 <= i < j < |before| ==> after[i] == before[i] || after[j] == before[j])
    && (n == 1 ==> NoSleeper(before) || exists i :: 0 < i < |before| && after[i] != before[i])
    && (n == 0 ==> after == before)
  }

  /** The master, outside Loop, adds checks. */
  ghost predicate AddStep<T>(s: State<T>, s': State<T>, checks: seq<T>) {
    && s.threads != [] && s.threads[0].Outside?
    && s'.shared == s.shared.(queue := s.shared.queue + checks, todo := s.shared.todo + |checks|)
    && WorkersNotified(s.threads, s'.threads, |checks|)
    && s'.added == s.added + checks
    && s'.done == s.done
  }

  ghost predicate Next<T(!new)>(config: Config, run: T -> bool, s: State<T>, s': State<T>) {
    || (exists i: nat :: SectionStep(config, run, s, s', i))
    || (exists checks: seq<T> :: AddStep(s, s', checks))
  }

  ghost predicate Init<T>(s: State<T>) {
    && s.shared == Shared([], 0, 0, true, 0)
    && s.threads != [] && (forall i :: 0 <= i < |s.threads| ==> s.threads[i].Outside?)
    && s.added == [] && s.done == multiset{}
  }

  // ---------- Counting threads and checks ----------

  datatype Tally<T> = Tally(inside: int, asleep: int, busy: int, inFlight: int, held: multiset<T>)

  ghost function TallyOf<T>(l: Local<T>): Tally<T> {
    match l
    case Outside => Tally(0, 0, 0, 0, multiset{})
    case Asleep(_) => Tally(1, 1, 0, 0, multiset{})
    case Busy(batch, _) => Tally(1, 0, 1, |batch|, multiset(batch))
  }

  ghost function Plus<T>(a: Tally<T>, b: Tally<T>): Tally<T> {
    Tally(a.inside + b.inside, a.asleep + b.asleep, a.busy + b.busy, a.inFlight + b.inFlight, a.held + b.held)
  }

  ghost function TallyUpTo<T>(threads: seq<Local<T>>, n: nat): Tally<T>
    requires n <= |threads|
  {
    if n == 0 then Tally(0, 0, 0, 0, multiset{}) else Plus(TallyUpTo(threads, n - 1), TallyOf(threads[n - 1]))
  }

  ghost function TallyAll<T>(threads: seq<Local<T>>): Tally<T> {
    TallyUpTo(threads, |threads|)
  }

  lemma PlusSwap<T>(a: Tally<T>, b: Tally<T>, c: Tally<T>)
    ensures Plus(Plus(a, b), c) == Plus(Plus(a, c), b)
  {
  }

  lemma {:induction false} TallySame<T>(before: seq<Local<T>>, after: seq<Local<T>>, n: nat)
    requires n <= |before| == |after|
    requires forall i :: 0 <= i < n ==> TallyOf(after[i]) == TallyOf(before[i])
    ensures TallyUpTo(after, n) == TallyUpTo(before, n)
  {
    hide Plus, TallyOf;
    if n > 0 {
      TallySame(before, after, n - 1);
    }
  }

  lemma {:induction false} TallyUpdate<T>(threads: seq<Local<T>>, i: nat, l: Local<T>, n: nat)
    requires i < n <= |threads|
    ensures Plus(TallyUpTo(threads[i := l], n), TallyOf(threads[i])) == Plus(TallyUpTo(threads, n), TallyOf(l))
  {
    hide Plus, TallyOf;
    var after := threads[i := l];
    if i == n - 1 {
      TallySame(threads, after, i);
      PlusSwap(TallyUpTo(threads, i), TallyOf(l), TallyOf(threads[i]));
    } else {
      TallyUpdate(threads, i, l, n - 1);
      PlusSwap(TallyUpTo(after, n - 1), TallyOf(threads[n - 1]), TallyOf(threads[i]));
      PlusSwap(TallyUpTo(threads, n - 1), TallyOf(threads[n - 1]), TallyOf(l));
    }
  }

  /** Waking threads does not change what they hold. */
  lemma TallyWake<T>(before: seq<Local<T>>, after: seq<Local<T>>)
    requires |before| == |after|
    requires forall i :: 0 <= i < |before| ==> after[i] == before[i] || after[i] == Wake(before[i])
    ensures TallyAll(after) == TallyAll(before)
  {
    TallySame(before, after, |before|);
  }

  /** No negative counts, and only busy threads hold checks. */
  ghost predicate Sensible<T>(t: Tally<T>) {
    && t.asleep >= 0 && t.busy >= 0 && t.inFlight >= 0 && t.inside == t.asleep + t.busy
    && (t.busy == 0 ==> t.inFlight == 0 && t.held == multiset{})
  }

  lemma SensiblePlus<T>(a: Tally<T>, l: Local<T>)
    requires Sensible(a)
    ensures Sensible(Plus(a, TallyOf(l)))
  {
    if !l.Busy? {
      NothingHeld(a, l);
    }
  }

  /** A thread without a batch holds nothing. */
  lemma NothingHeld<T>(a: Tally<T>, l: Local<T>)
    requires !l.Busy?
    ensures Plus(a, TallyOf(l)).held == a.held
  {
    assert a.held + multiset{} == a.held;
  }

  lemma {:induction false} TallyBounds<T>(threads: seq<Local<T>>, n: nat)
    requires n <= |threads|
    ensures Sensible(TallyUpTo(threads, n))
  {
    hide Plus, TallyOf;
    if n > 0 {
      TallyBounds(threads, n - 1);
      hide Sensible;
      SensiblePlus(TallyUpTo(threads, n - 1), threads[n - 1]);
    }
  }

  lemma {:induction false} SomeoneBusy<T>(threads: seq<Local<T>>, n: nat) returns (i: nat)
    requires n <= |threads| && TallyUpTo(threads, n).busy > 0
    ensures i < n && threads[i].Busy?
  {
    if threads[n - 1].Busy? {
      i := n - 1;
    } else {
      i := SomeoneBusy(threads, n - 1);
    }
  }

  // ---------- What holds in every state ----------

  ghost predicate BatchesValid<T>(s: State<T>) {
    forall i :: 0 <= i < |s.threads| && s.threads[i].Busy? ==>
      s.threads[i].batch != [] && (!s.threads[i].ok ==> !s.shared.allOk)
  }

  /** The counters are exact, no check is lost or run twice, and the status is that of the finished checks. */
  ghost predicate CountsValid<T>(run: T -> bool, s: State<T>) {
    var t := TallyAll(s.threads);
    && s.shared.total == t.inside
    && s.shared.idle == t.asleep
    && s.shared.todo == |s.shared.queue| + t.inFlight
    && multiset(s.added) == multiset(s.shared.queue) + t.held + s.done
    && (s.shared.allOk <==> forall c :: c in s.done ==> run(c))
  }

  /** While the master sleeps there is nothing in the queue, and when nothing is left to do it has been notified. */
  ghost predicate MasterValid<T>(s: State<T>) {
    s.threads != [] && (s.threads[0].Asleep? ==> s.shared.queue == [] && (s.shared.todo == 0 ==> s.threads[0].notified))
  }

  ghost predicate Inv<T>(run: T -> bool, s: State<T>) {
    CountsValid(run, s) && BatchesValid(s) && MasterValid(s)
  }

  lemma {:induction false} OutsideTally<T>(threads: seq<Local<T>>, n: nat)
    requires n <= |threads| && forall i :: 0 <= i < |threads| ==> threads[i].Outside?
    ensures TallyUpTo(threads, n) == Tally(0, 0, 0, 0, multiset{})
  {
    if n > 0 {
      OutsideTally(threads, n - 1);
    }
  }

  lemma InitInv<T>(run: T -> bool, s: State<T>)
    requires Init(s)
    ensures Inv(run, s)
  {
    OutsideTally(s.threads, |s.threads|);
  }

  lemma AddKeepsInv<T>(run: T -> bool, s: State<T>, s': State<T>, checks: seq<T>)
    requires Inv(run, s) && AddStep(s, s', checks)
    ensures Inv(run, s')
  {
    TallyWake(s.threads, s'.threads);
    hide TallyUpTo;
    AddHeld(s.added, s.shared.queue, TallyAll(s.threads).held, s.done, checks);
  }

  lemma AddHeld<T>(added: seq<T>, queue: seq<T>, held: multiset<T>, done: multiset<T>, checks: seq<T>)
    requires multiset(added) == multiset(queue) + held + done
    ensures multiset(added + checks) == multiset(queue + checks) + held + done
  {
    assert multiset(added + checks) == multiset(added) + multiset(checks);
    assert multiset(queue + checks) == multiset(queue) + multiset(checks);
  }

  // ---------- A critical section, on the counters ----------

  /** The counters while a thread is inside its critical section; o tallies the other threads. */
  ghost predicate Mid<T>(run: T -> bool, c: Shared<T>, o: Tally<T>, added: seq<T>, done: multiset<T>) {
    && c.total == o.inside + 1
    && c.idle == o.asleep
    && c.todo == |c.queue| + o.inFlight
    && multiset(added) == multiset(c.queue) + o.held + done
    && (c.allOk <==> forall x :: x in done ==> run(x))
  }

  ghost function Others<T>(threads: seq<Local<T>>, i: nat): Tally<T>
    requires i < |threads|
  {
    TallyAll(threads[i := Outside])
  }

  lemma OthersPlus<T>(threads: seq<Local<T>>, i: nat, l: Local<T>)
    requires i < |threads|
    ensures TallyAll(threads[i := l]) == Plus(Others(threads, i), TallyOf(l))
  {
    TallyUpdate(threads[i := Outside], i, l, |threads|);
    assert threads[i := Outside][i := l] == threads[i := l];
    hide TallyUpTo;
    assert TallyOf<T>(Outside) == Tally(0, 0, 0, 0, multiset{});
    var a := TallyAll(threads[i := l]);
    assert Plus(a, TallyOf(Outside)) == a;
  }

  ghost function DoneAfter<T>(done: multiset<T>, l: Local<T>): multiset<T> {
    if l.Busy? then done + multiset(l.batch) else done
  }

  lemma AllPassMultiset<T>(run: T -> bool, batch: seq<T>)
    ensures AllPass(run, batch) <==> forall x :: x in multiset(batch) ==> run(x)
  {
    forall i | 0 <= i < |batch|
      ensures batch[i] in multiset(batch)
    {
    }
  }

  lemma CleanUpMid<T>(run: T -> bool, s: State<T>, i: nat)
    requires CountsValid(run, s) && BatchesValid(s) && i < |s.threads|
    ensures Mid(run, CleanUp(run, s.shared, s.threads[i]), Others(s.threads, i), s.added,
                DoneAfter(s.done, s.threads[i]))
  {
    var l := s.threads[i];
    OthersPlus(s.threads, i, l);
    assert s.threads[i := l] == s.threads;
    hide TallyAll, Others;
    if l.Busy? {
      AllPassMultiset(run, l.batch);
    }
  }

  lemma {:induction false} PoppedIsReversed<T>(queue: seq<T>, n: nat)
    requires n <= |queue|
    ensures |Popped(queue, n)| == n
    ensures forall k :: 0 <= k < n ==> Popped(queue, n)[k] == queue[|queue| - 1 - k]
  {
    if n > 0 {
      PoppedIsReversed(queue[..|queue| - 1], n - 1);
    }
  }

  /** Rearranging sums of multisets. */
  lemma Regroup<T>(q: multiset<T>, a: multiset<T>, b: multiset<T>, p: multiset<T>, r: multiset<T>, x: multiset<T>)
    requires q == a + b && a == r + p && x == b + p
    ensures q == r + x
  {
  }

  lemma Move<T>(all: multiset<T>, q: multiset<T>, h: multiset<T>, d: multiset<T>, r: multiset<T>, x: multiset<T>)
    requires all == q + h + d && q == r + x
    ensures all == r + (h + x) + d
  {
  }

  lemma PopOne<T>(queue: seq<T>, n: nat)
    requires 0 < n <= |queue|
    ensures var init, back := queue[..|queue| - 1], [queue[|queue| - 1]];
            && Popped(queue, n) == back + Popped(init, n - 1)
            && queue == init + back && init[..|init| - (n - 1)] == queue[..|queue| - n]
  {
  }

  ghost function Bag<T>(s: seq<T>): multiset<T> {
    multiset(s)
  }

  lemma BagOfSum<T>(a: seq<T>, b: seq<T>, c: seq<T>)
    requires c == a + b
    ensures Bag(c) == Bag(a) + Bag(b)
  {
  }

  lemma PopStep<T>(queue: seq<T>, init: seq<T>, back: seq<T>, rest: seq<T>, popped: seq<T>, all: seq<T>)
    requires queue == init + back && all == back + popped && Bag(init) == Bag(rest) + Bag(popped)
    ensures Bag(queue) == Bag(rest) + Bag(all)
  {
    BagOfSum(init, back, queue);
    BagOfSum(back, popped, all);
    hide Bag;
    Regroup(Bag(queue), Bag(init), Bag(back), Bag(popped), Bag(rest), Bag(all));
  }

  lemma {:induction false} PoppedBag<T>(queue: seq<T>, n: nat)
    requires n <= |queue|
    ensures Bag(queue) == Bag(queue[..|queue| - n]) + Bag(Popped(queue, n))
  {
    if n == 0 {
      assert queue[..|queue|] == queue;
    } else {
      hide Popped, Bag;
      var init := queue[..|queue| - 1];
      PopOne(queue, n);
      PoppedBag(init, n - 1);
      PopStep(queue, init, [queue[|queue| - 1]], queue[..|queue| - n], Popped(init, n - 1), Popped(queue, n));
    }
  }

  lemma PoppedSplits<T>(queue: seq<T>, n: nat)
    requires n <= |queue|
    ensures multiset(queue) == multiset(queue[..|queue| - n]) + multiset(Popped(queue, n))
  {
    PoppedBag(queue, n);
  }

  /** A thread that finds checks takes some from the back. */
  lemma SettleTakes<T>(config: Config, c: Shared<T>, master: bool)
    requires c.queue != [] && c.total >= 0 && c.idle >= 0
    ensures var n, out := BatchLength(config, c), Settle(config, c, master);
            && 1 <= n <= |c.queue| && out.local.Busy?
            && out.shared.queue == c.queue[..|c.queue| - n] && out.local.batch == Popped(c.queue, n)
  {
    BatchFits(config, c);
    hide BatchLength, Popped;
  }

  /** No check gets lost in a critical section. */
  lemma SettleHeld<T>(config: Config, run: T -> bool, c: Shared<T>, o: Tally<T>, added: seq<T>, done: multiset<T>,
                      master: bool)
    requires Mid(run, c, o, added, done) && o.asleep >= 0 && o.inside >= 0
    ensures var out := Settle(config, c, master);
            multiset(added) == multiset(out.shared.queue) + Plus(o, TallyOf(out.local)).held + done
  {
    hide BatchLength, Popped, Settle, Plus, TallyOf;
    var out := Settle(config, c, master);
    if c.queue == [] {
      SettleIdle(config, c, master);
      NothingHeld(o, out.local);
    } else {
      SettleTakes(config, c, master);
      PoppedSplits(c.queue, BatchLength(config, c));
      BatchHeld(o, out.local);
      Move(multiset(added), multiset(c.queue), o.held, done, multiset(out.shared.queue), multiset(out.local.batch));
    }
  }

  lemma SettleIdle<T>(config: Config, c: Shared<T>, master: bool)
    requires c.queue == []
    ensures Settle(config, c, master).shared.queue == c.queue && !Settle(config, c, master).local.Busy?
  {
  }

  lemma BatchHeld<T>(o: Tally<T>, l: Local<T>)
    requires l.Busy?
    ensures Plus(o, TallyOf(l)).held == o.held + multiset(l.batch)
  {
  }

  /** After the critical section the counters are exact again. */
  lemma SettleExact<T>(config: Config, run: T -> bool, c: Shared<T>, o: Tally<T>, added: seq<T>, done: multiset<T>,
                       master: bool)
    requires Mid(run, c, o, added, done) && o.asleep >= 0 && o.inside >= 0
    ensures var out := Settle(config, c, master);
            var t := Plus(o, TallyOf(out.local));
            && out.shared.total == t.inside
            && out.shared.idle == t.asleep
            && out.shared.todo == |out.shared.queue| + t.inFlight
            && (out.shared.allOk == c.allOk || (master && out.returned.Some?))
            && (out.local.Busy? ==> out.local.batch != [] && out.local.ok == c.allOk)
  {
    if c.queue != [] {
      BatchFits(config, c);
      PoppedIsReversed(c.queue, BatchLength(config, c));
    }
  }

  /** Batches are not empty, so without a check in flight no thread is busy. */
  lemma {:induction false} BusyMeansInFlight<T>(threads: seq<Local<T>>, n: nat)
    requires n <= |threads|
    requires forall i :: 0 <= i < |threads| && threads[i].Busy? ==> threads[i].batch != []
    ensures TallyUpTo(threads, n).busy <= TallyUpTo(threads, n).inFlight
  {
    if n > 0 {
      BusyMeansInFlight(threads, n - 1);
    }
  }

  /** The master leaves exactly when every added check is done, and what it returns is their conjunction. */
  lemma MasterLeaves<T>(config: Config, run: T -> bool, s: State<T>)
    requires Inv(run, s)
    requires Section(config, run, s.shared, s.threads[0], true).returned.Some?
    ensures Section(config, run, s.shared, s.threads[0], true).returned.value == AllPass(run, s.added)
    ensures Others(s.threads, 0).busy == 0
    ensures Section(config, run, s.shared, s.threads[0], true).shared.todo == 0
  {
    var c := CleanUp(run, s.shared, s.threads[0]);
    CleanUpMid(run, s, 0);
    var others := s.threads[0 := Outside];
    BusyMeansInFlight(others, |others|);
    TallyBounds(others, |others|);
    assert multiset(s.added) == DoneAfter(s.done, s.threads[0]);
    AllPassMultiset(run, s.added);
  }

  // ---------- Every step keeps the invariant ----------

  ghost function Woken<T>(run: T -> bool, s: State<T>, i: nat): seq<Local<T>>
    requires i < |s.threads|
  {
    if NotifiesMaster(run, s.shared, s.threads[i], IsMaster(i)) then s.threads[0 := Wake(s.threads[0])] else s.threads
  }

  lemma AfterTally<T>(config: Config, run: T -> bool, s: State<T>, i: nat)
    requires i < |s.threads|
    ensures var local := Section(config, run, s.shared, s.threads[i], IsMaster(i)).local;
            && AfterSection(config, run, s, i).threads == Woken(run, s, i)[i := local]
            && TallyAll(AfterSection(config, run, s, i).threads) == Plus(Others(s.threads, i), TallyOf(local))
  {
    var local := Section(config, run, s.shared, s.threads[i], IsMaster(i)).local;
    hide Section;
    var woken := Woken(run, s, i);
    TallyWake(s.threads[i := Outside], woken[i := Outside]);
    OthersPlus(woken, i, local);
  }

  lemma SectionKeepsCounts<T>(config: Config, run: T -> bool, s: State<T>, i: nat)
    requires Inv(run, s) && i < |s.threads|
    ensures CountsValid(run, AfterSection(config, run, s, i))
  {
    hide CleanUp, Settle, Plus, TallyOf, TallyAll, Others, TallyUpTo;
    var l := s.threads[i];
    var c := CleanUp(run, s.shared, l);
    var o := Others(s.threads, i);
    var done := DoneAfter(s.done, l);
    var out := Settle(config, c, IsMaster(i));
    CleanUpMid(run, s, i);
    OthersBounds(s.threads, i);
    SettleExact(config, run, c, o, s.added, done, IsMaster(i));
    SettleHeld(config, run, c, o, s.added, done, IsMaster(i));
    AfterTally(config, run, s, i);
    if IsMaster(i) && out.returned.Some? {
      MasterLeaves(config, run, s);
      LeavingHoldsNothing(config, run, s);
    } else {
      assert AfterSection(config, run, s, i).done == done;
    }
  }

  /** When the master leaves nothing is queued or held any more. */
  lemma LeavingHoldsNothing<T>(config: Config, run: T -> bool, s: State<T>)
    requires Inv(run, s) && Section(config, run, s.shared, s.threads[0], true).returned.Some?
    ensures var after := AfterSection(config, run, s, 0);
            && after.shared.queue == [] && after.shared.allOk && after.added == [] && after.done == multiset{}
            && TallyAll(after.threads).held == multiset{}
  {
    hide TallyUpTo, TallyAll, Others, Plus, TallyOf, CleanUp, Settle, CountsValid, BatchesValid;
    MasterLeaves(config, run, s);
    LeavingResets(config, CleanUp(run, s.shared, s.threads[0]));
    AfterTally(config, run, s, 0);
    OthersIdle(s.threads, 0);
    NothingHeld(Others(s.threads, 0), Section(config, run, s.shared, s.threads[0], true).local);
  }

  lemma OthersIdle<T>(threads: seq<Local<T>>, i: nat)
    requires i < |threads| && Others(threads, i).busy == 0
    ensures Others(threads, i).held == multiset{}
  {
    TallyBounds(threads[i := Outside], |threads|);
    hide TallyUpTo;
  }

  lemma SectionKeepsBatches<T>(config: Config, run: T -> bool, s: State<T>, i: nat)
    requires Inv(run, s) && i < |s.threads|
    ensures BatchesValid(AfterSection(config, run, s, i))
  {
    var s' := AfterSection(config, run, s, i);
    var c := CleanUp(run, s.shared, s.threads[i]);
    CleanUpMid(run, s, i);
    TallyBounds(s.threads[i := Outside], |s.threads|);
    SettleExact(config, run, c, Others(s.threads, i), s.added, DoneAfter(s.done, s.threads[i]), IsMaster(i));
    var out := Settle(config, c, IsMaster(i));
    if IsMaster(i) && out.returned.Some? {
      MasterLeaves(config, run, s);
      NoneBusy(s.threads[i := Outside], |s.threads|);
    }
    forall j | 0 <= j < |s'.threads| && s'.threads[j].Busy?
      ensures s'.threads[j].batch != [] && (!s'.threads[j].ok ==> !s'.shared.allOk)
    {
      if j != i {
        assert s'.threads[j] == s.threads[j];
        assert s.threads[i := Outside][j] == s.threads[j];
      }
    }
  }

  lemma BusyStep<T>(threads: seq<Local<T>>, n: nat)
    requires 0 < n <= |threads|
    ensures TallyUpTo(threads, n).busy == TallyUpTo(threads, n - 1).busy + (if threads[n - 1].Busy? then 1 else 0)
  {
  }

  lemma {:induction false} NoneBusy<T>(threads: seq<Local<T>>, n: nat)
    requires n <= |threads| && TallyUpTo(threads, n).busy == 0
    ensures forall j :: 0 <= j < n ==> !threads[j].Busy?
  {
    hide TallyUpTo, Plus, TallyOf;
    if n > 0 {
      BusyStep(threads, n);
      TallyBounds(threads, n - 1);
      NoneBusy(threads, n - 1);
    }
  }

  /** When a thread goes to sleep, and what it leaves alone. */
  lemma SettleSleeps<T>(config: Config, c: Shared<T>, master: bool)
    ensures var out := Settle(config, c, master);
            && out.shared.todo == c.todo
            && (c.queue == [] ==> out.shared.queue == [])
            && (out.local.Asleep? ==> c.queue == [] && (master ==> c.todo != 0))
  {
    hide BatchLength, Popped;
  }

  lemma SectionKeepsMaster<T>(config: Config, run: T -> bool, s: State<T>, i: nat)
    requires Inv(run, s) && i < |s.threads|
    ensures MasterValid(AfterSection(config, run, s, i))
  {
    hide CountsValid, BatchesValid, AllPass, Settle;
    SettleSleeps(config, CleanUp(run, s.shared, s.threads[i]), IsMaster(i));
  }

  lemma NextKeepsInv<T(!new)>(config: Config, run: T -> bool, s: State<T>, s': State<T>)
    requires Inv(run, s) && Next(config, run, s, s')
    ensures Inv(run, s')
  {
    hide CountsValid, BatchesValid, MasterValid, AfterSection;
    if i: nat :| SectionStep(config, run, s, s', i) {
      SectionKeepsCounts(config, run, s, i);
      SectionKeepsBatches(config, run, s, i);
      SectionKeepsMaster(config, run, s, i);
    } else {
      var checks :| AddStep(s, s', checks);
      AddKeepsInv(run, s, s', checks);
    }
  }

  ghost predicate IsRun<T(!new)>(config: Config, run: T -> bool, trace: seq<State<T>>) {
    && trace != [] && Init(trace[0])
    && forall k :: 0 < k < |trace| ==> Next(config, run, trace[k - 1], trace[k])
  }

  /** Every state of every interleaving meets the invariant. */
  lemma {:induction false} RunInv<T(!new)>(config: Config, run: T -> bool, trace: seq<State<T>>, k: nat)
    requires IsRun(config, run, trace) && k < |trace|
    ensures Inv(run, trace[k])
  {
    if k == 0 {
      InitInv(run, trace[0]);
    } else {
      RunInv(config, run, trace, k - 1);
      NextKeepsInv(config, run, trace[k - 1], trace[k]);
    }
  }

  // ---------- What a caller gets ----------

  /** Everything CCheckQueueControl asserts about an unused queue. */
  ghost predicate Unused<T>(s: State<T>) {
    s.shared.total == s.shared.idle && s.shared.todo == 0 && s.shared.allOk
  }

  lemma LeavingResets<T>(config: Config, c: Shared<T>)
    requires Settle(config, c, true).returned.Some?
    ensures var out := Settle(config, c, true);
            out.shared.queue == [] && out.shared.allOk && out.local == Outside
  {
  }

  lemma WaitResult<T>(config: Config, run: T -> bool, s: State<T>)
    requires Inv(run, s)
    requires Section(config, run, s.shared, s.threads[0], true).returned.Some?
    ensures Unused(AfterSection(config, run, s, 0))
    ensures AfterSection(config, run, s, 0).added == [] && AfterSection(config, run, s, 0).shared.queue == []
  {
    hide CleanUp, TallyAll, Settle, BatchesValid;
    MasterLeaves(config, run, s);
    LeavingResets(config, CleanUp(run, s.shared, s.threads[0]));
    SectionKeepsCounts(config, run, s, 0);
    AfterTally(config, run, s, 0);
    OthersBounds(s.threads, 0);
  }

  lemma OthersBounds<T>(threads: seq<Local<T>>, i: nat)
    requires i < |threads|
    ensures Others(threads, i).inside == Others(threads, i).asleep + Others(threads, i).busy
    ensures Others(threads, i).asleep >= 0 && Others(threads, i).busy >= 0
  {
    TallyBounds(threads[i := Outside], |threads|);
  }

  /** Wait returns whether all checks added since the previous Wait pass, in every interleaving, and leaves
      the queue in the state the next CCheckQueueControl asserts. */
  lemma WaitIsConjunction<T(!new)>(config: Config, run: T -> bool, trace: seq<State<T>>, k: nat)
    requires IsRun(config, run, trace) && k < |trace| && trace[k].threads != []
    requires Section(config, run, trace[k].shared, trace[k].threads[0], true).returned.Some?
    ensures Section(config, run, trace[k].shared, trace[k].threads[0], true).returned.value
              == AllPass(run, trace[k].added)
    ensures Unused(AfterSection(config, run, trace[k], 0))
    ensures AfterSection(config, run, trace[k], 0).added == []
    ensures AfterSection(config, run, trace[k], 0).shared.queue == []
  {
    hide Section, AfterSection, Unused, AllPass, Next;
    RunInv(config, run, trace, k);
    MasterLeaves(config, run, trace[k]);
    WaitResult(config, run, trace[k]);
  }

  /** Between two uses the control's assertions hold whenever the master is outside and has nothing pending. */
  lemma UnusedBetweenWaits<T>(run: T -> bool, s: State<T>)
    requires Inv(run, s) && s.threads[0].Outside? && s.added == []
    ensures Unused(s)
  {
    BusyMeansInFlight(s.threads, |s.threads|);
    TallyBounds(s.threads, |s.threads|);
    assert |multiset(s.added)| == |s.shared.queue| + |TallyAll(s.threads).held| + |s.done|;
    HeldIsInFlight(s.threads, |s.threads|);
    assert forall c :: c !in s.done;
  }

  lemma {:induction false} HeldIsInFlight<T>(threads: seq<Local<T>>, n: nat)
    requires n <= |threads|
    ensures |TallyUpTo(threads, n).held| == TallyUpTo(threads, n).inFlight
  {
    if n > 0 {
      HeldIsInFlight(threads, n - 1);
    }
  }

  /** No lost wakeup: a master that sleeps without having been notified can count on a worker that holds a batch. */
  lemma MasterIsWokenUp<T>(run: T -> bool, s: State<T>) returns (i: nat)
    requires Inv(run, s) && s.threads[0] == Asleep(false)
    ensures 0 < i < |s.threads| && s.threads[i].Busy?
  {
    TallyBounds(s.threads, |s.threads|);
    i := SomeoneBusy(s.threads, |s.threads|);
  }

  /** What is left: checks to finish and checks to hand out. */
  ghost function Remaining<T>(s: State<T>): int {
    s.shared.todo + |s.shared.queue|
  }

  lemma SettleProgress<T>(config: Config, c: Shared<T>, master: bool)
    requires c.total >= 0 && c.idle >= 0
    ensures var out := Settle(config, c, master);
            && out.shared.todo == c.todo
            && (if c.queue == [] then out.shared.queue == [] && (out.local.Outside? || out.local == Asleep(false))
                else |out.shared.queue| < |c.queue|)
  {
    if c.queue != [] {
      BatchFits(config, c);
    }
  }

  lemma CountersNonNegative<T>(run: T -> bool, s: State<T>, i: nat)
    requires Inv(run, s) && i < |s.threads|
    ensures Remaining(s) >= 0
    ensures CleanUp(run, s.shared, s.threads[i]).total >= 0 && CleanUp(run, s.shared, s.threads[i]).idle >= 0
  {
    TallyBounds(s.threads, |s.threads|);
    CleanUpMid(run, s, i);
    TallyBounds(s.threads[i := Outside], |s.threads|);
    hide CleanUp, TallyUpTo;
  }

  /** A critical section hands back or takes at least one check, or lets the thread leave, or the thread goes (back)
      to sleep having found nothing to do. */
  lemma SectionProgress<T>(config: Config, run: T -> bool, s: State<T>, i: nat)
    requires Inv(run, s) && i < |s.threads|
    ensures Remaining(s) >= 0
    ensures var s' := AfterSection(config, run, s, i);
            || Remaining(s') < Remaining(s)
            || s'.threads[i].Outside?
            || (!s.threads[i].Busy? && s.shared.queue == [] && s'.threads[i] == Asleep(false))
  {
    hide CountsValid, MasterValid, Settle, AllPass;
    CountersNonNegative(run, s, i);
    SettleProgress(config, CleanUp(run, s.shared, s.threads[i]), IsMaster(i));
  }

  /** In every run, at every step: a thread that takes a batch takes a fair share among the threads in Loop. */
  lemma RunTakesShares<T(!new)>(config: Config, run: T -> bool, trace: seq<State<T>>, k: nat, i: nat)
    requires IsRun(config, run, trace) && k + 1 < |trace| && SectionStep(config, run, trace[k], trace[k + 1], i)
    requires trace[k + 1].threads[i].Busy?
    ensures var t := TallyAll(trace[k + 1].threads);
            FairShare(|trace[k + 1].threads[i].batch|, config, |trace[k].shared.queue|, t.inside, t.asleep)
  {
    hide CleanUp, Settle, NotifiesMaster, FairShare, TallyAll, Next;
    RunInv(config, run, trace, k);
    RunInv(config, run, trace, k + 1);
    CountersNonNegative(run, trace[k], i);
    SectionTakesShare(config, run, trace[k].shared, trace[k].threads[i], IsMaster(i));
  }

  // ---------- Runs that go on ----------

  datatype Action<T> = Run(i: nat) | Add(checks: seq<T>)

  ghost predicate ActionStep<T>(config: Config, run: T -> bool, s: State<T>, s': State<T>, action: Action<T>) {
    match action
    case Run(i) => SectionStep(config, run, s, s', i)
    case Add(checks) => AddStep(s, s', checks)
  }

  /** A run without end, with what happens in each step. */
  ghost predicate IsEndless<T(!new)>(config: Config, run: T -> bool, trace: nat -> State<T>,
                                     actions: nat -> Action<T>)
  {
    Init(trace(0)) && forall k: nat :: ActionStep(config, run, trace(k), trace(k + 1), actions(k))
  }

  /** A thread that can go on: it has finished its batch or has been notified. */
  predicate Ready<T>(l: Local<T>) {
    l.Busy? || l == Asleep(true)
  }

  /** A thread that can go on does so some time. */
  ghost predicate Fair<T(!new)>(trace: nat -> State<T>, actions: nat -> Action<T>) {
    forall k: nat, i: nat :: i < |trace(k).threads| && Ready(trace(k).threads[i]) ==> Acts(actions, k, i)
  }

  ghost predicate Acts<T(!new)>(actions: nat -> Action<T>, k: nat, i: nat) {
    exists j: nat :: k <= j && actions(j) == Run(i)
  }

  lemma {:induction false} EndlessInv<T(!new)>(config: Config, run: T -> bool, trace: nat -> State<T>,
                                               actions: nat -> Action<T>, k: nat)
    requires IsEndless(config, run, trace, actions)
    ensures Inv(run, trace(k))
  {
    hide Inv, SectionStep, AddStep;
    if k == 0 {
      InitInv(run, trace(0));
    } else {
      EndlessInv(config, run, trace, actions, k - 1);
      assert ActionStep(config, run, trace(k - 1), trace(k - 1 + 1), actions(k - 1));
      NextKeepsInv(config, run, trace(k - 1), trace(k));
    }
  }

  /** The next critical section of the master is the one that leaves Loop. */
  ghost predicate Returns<T>(config: Config, run: T -> bool, s: State<T>) {
    s.threads != [] && Section(config, run, s.shared, s.threads[0], true).returned.Some?
  }

  /** A critical section never adds work.  A thread that hands back a batch reduces it, and so does a master that was
      notified and finds something to do; otherwise it leaves, or sleeps until the next notification. */
  lemma SectionReduces<T>(config: Config, run: T -> bool, s: State<T>, i: nat)
    requires Inv(run, s) && i < |s.threads|
    ensures var s' := AfterSection(config, run, s, i);
            && 0 <= Remaining(s') <= Remaining(s)
            && (s.threads[i].Busy? ==> Remaining(s') < Remaining(s))
            && (i == 0 && !Returns(config, run, s) ==> Remaining(s') < Remaining(s) || s'.threads[0] == Asleep(false))
  {
    hide CountsValid, MasterValid, AllPass, Popped, BatchLength;
    CountersNonNegative(run, s, i);
    SettleProgress(config, CleanUp(run, s.shared, s.threads[i]), IsMaster(i));
    SectionKeepsCounts(config, run, s, i);
    RemainingIsNatural(run, AfterSection(config, run, s, i));
  }

  lemma RemainingIsNatural<T>(run: T -> bool, s: State<T>)
    requires CountsValid(run, s)
    ensures Remaining(s) >= 0
  {
    TallyBounds(s.threads, |s.threads|);
  }

  /** What a critical section of thread i leaves alone. */
  lemma SectionSpares<T>(config: Config, run: T -> bool, s: State<T>, i: nat, j: nat)
    requires i < |s.threads| && j < |s.threads|
    ensures var s' := AfterSection(config, run, s, i);
            && |s'.threads| == |s.threads|
            && (j != i && Ready(s.threads[j]) ==> s'.threads[j] == s.threads[j])
            && (j != i && !s.threads[j].Outside? ==> !s'.threads[j].Outside?)
            && (i == 0 && !Returns(config, run, s) ==> !s'.threads[0].Outside?)
            && (i != 0 || !Returns(config, run, s) ==> s'.added == s.added)
            && (!s.threads[i].Busy? && !Alerted(s) ==> !Alerted(s'))
  {
  }

  /** The master is in Loop. */
  predicate Inside<T>(s: State<T>) {
    s.threads != [] && !s.threads[0].Outside?
  }

  /** The master has been notified and has not looked yet. */
  predicate Alerted<T>(s: State<T>) {
    s.threads != [] && s.threads[0] == Asleep(true)
  }

  /** Work was done between two states, or a master that had been notified has looked and found nothing to do. */
  ghost predicate Nearer<T>(s: State<T>, s': State<T>) {
    Remaining(s') < Remaining(s) || (Remaining(s') <= Remaining(s) && Alerted(s) && !Alerted(s'))
  }

  /** While the master waits for thread i to go on: it returns, or gets nearer to that. */
  lemma {:induction false} Advances<T(!new)>(config: Config, run: T -> bool, trace: nat -> State<T>,
                                             actions: nat -> Action<T>, k: nat, i: nat, end: nat) returns (j: nat)
    requires IsEndless(config, run, trace, actions) && k <= end && actions(end) == Run(i)
    requires Inside(trace(k)) && i < |trace(k).threads|
    requires if i == 0 then Ready(trace(k).threads[0]) else trace(k).threads[i].Busy?
    ensures k <= j && Inside(trace(j)) && trace(j).added == trace(k).added
    ensures (actions(j) == Run(0) && Returns(config, run, trace(j))) || Nearer(trace(k), trace(j))
    decreases end - k
  {
    hide Inv, AfterSection, Returns, Remaining, CountsValid;
    EndlessInv(config, run, trace, actions, k);
    assert ActionStep(config, run, trace(k), trace(k + 1), actions(k));
    j := k;
    if actions(k) != Run(0) || !Returns(config, run, trace(k)) {
      var other := actions(k).i;
      SectionReduces(config, run, trace(k), other);
      SectionSpares(config, run, trace(k), other, i);
      SectionSpares(config, run, trace(k), other, 0);
      if Nearer(trace(k), trace(k + 1)) {
        j := k + 1;
      } else {
        j := Advances(config, run, trace, actions, k + 1, i, end);
      }
    }
  }

  /** Every Wait comes to an end, and returns whether all checks that were added pass.  All it takes is that threads
      which can go on do so some time. */
  lemma {:induction false} WaitEnds<T(!new)>(config: Config, run: T -> bool, trace: nat -> State<T>,
                                             actions: nat -> Action<T>, k: nat) returns (j: nat)
    requires IsEndless(config, run, trace, actions) && Fair(trace, actions) && Inside(trace(k))
    ensures k <= j && actions(j) == Run(0) && trace(j).threads != []
    ensures Section(config, run, trace(j).shared, trace(j).threads[0], true).returned
              == Some(AllPass(run, trace(k).added))
    decreases Remaining(trace(k)), Alerted(trace(k))
  {
    hide IsEndless, Inv, Section, AllPass, Remaining, CountsValid;
    EndlessInv(config, run, trace, actions, k);
    SomeoneActs(run, trace(k));
    var i :| 0 <= i < |trace(k).threads| && Ready(trace(k).threads[i]) && (i == 0 || trace(k).threads[i].Busy?);
    assert Acts(actions, k, i);
    var end: nat :| k <= end && actions(end) == Run(i);
    j := Advances(config, run, trace, actions, k, i, end);
    if actions(j) == Run(0) && Returns(config, run, trace(j)) {
      EndlessInv(config, run, trace, actions, j);
      MasterLeaves(config, run, trace(j));
    } else {
      j := WaitEnds(config, run, trace, actions, j);
    }
  }

  /** While the master is in Loop, it can go on itself or a worker has a batch. */
  lemma SomeoneActs<T>(run: T -> bool, s: State<T>)
    requires Inv(run, s) && Inside(s)
    ensures Remaining(s) >= 0
    ensures exists i :: 0 <= i < |s.threads| && Ready(s.threads[i]) && (i == 0 || s.threads[i].Busy?)
  {
    RemainingIsNatural(run, s);
    if s.threads[0] == Asleep(false) {
      var i := MasterIsWokenUp(run, s);
    }
  }

  // ---------- The workers ----------

  /** While there is something in the queue, no worker waits for a notification, or some worker can go on. */
  ghost predicate WorkersValid<T>(s: State<T>) {
    s.shared.queue == [] || NoSleeper(s.threads) || SomeWorkerReady(s.threads)
  }

  ghost predicate SomeWorkerReady<T>(threads: seq<Local<T>>) {
    exists i :: 0 < i < |threads| && Ready(threads[i])
  }

  lemma AddWakesWorkers<T>(s: State<T>, s': State<T>, checks: seq<T>)
    requires AddStep(s, s', checks) && WorkersValid(s)
    ensures WorkersValid(s')
  {
    if |checks| == 1 && !NoSleeper(s.threads) {
      var i :| 0 < i < |s.threads| && s'.threads[i] != s.threads[i];
      assert Ready(s'.threads[i]);
    }
  }

  lemma SectionKeepsWorkers<T>(config: Config, run: T -> bool, s: State<T>, i: nat)
    requires i < |s.threads| && WorkersValid(s)
    ensures WorkersValid(AfterSection(config, run, s, i))
  {
    var s' := AfterSection(config, run, s, i);
    hide AllPass, Popped, BatchLength;
    if s'.shared.queue != [] {
      assert s.shared.queue != [];
      assert i > 0 ==> Ready(s'.threads[i]);
      if i == 0 && SomeWorkerReady(s.threads) {
        var j :| 0 < j < |s.threads| && Ready(s.threads[j]);
        assert s'.threads[j] == s.threads[j];
      }
    }
  }

  lemma {:induction false} EndlessWorkers<T(!new)>(config: Config, run: T -> bool, trace: nat -> State<T>,
                                                   actions: nat -> Action<T>, k: nat)
    requires IsEndless(config, run, trace, actions)
    ensures WorkersValid(trace(k))
  {
    hide AfterSection, AddStep, WorkersValid;
    if k == 0 {
      assert WorkersValid(trace(0)) by {
        InitialQueue(trace(0));
      }
    } else {
      EndlessWorkers(config, run, trace, actions, k - 1);
      assert ActionStep(config, run, trace(k - 1), trace(k - 1 + 1), actions(k - 1));
      match actions(k - 1)
      case Run(i) => SectionKeepsWorkers(config, run, trace(k - 1), i);
      case Add(checks) => AddWakesWorkers(trace(k - 1), trace(k), checks);
    }
  }

  lemma InitialQueue<T>(s: State<T>)
    requires Init(s)
    ensures WorkersValid(s)
  {
  }

  /** Checks are worked on while the master is still adding more: whenever there is something in the queue and a worker
      in Loop, some time a worker takes a batch, unless the queue is empty by then. */
  lemma WorkersProceed<T(!new)>(config: Config, run: T -> bool, trace: nat -> State<T>, actions: nat -> Action<T>,
                                k: nat, w: nat) returns (j: nat, i: nat)
    requires IsEndless(config, run, trace, actions) && Fair(trace, actions) && trace(k).shared.queue != []
    requires 0 < w < |trace(k).threads| && !trace(k).threads[w].Outside?
    ensures k <= j && i > 0 && actions(j) == Run(i) && i < |trace(j + 1).threads|
    ensures trace(j).shared.queue == [] || trace(j + 1).threads[i].Busy?
  {
    EndlessWorkers(config, run, trace, actions, k);
    if NoSleeper(trace(k).threads) {
      i := w;
    } else {
      i :| 0 < i < |trace(k).threads| && Ready(trace(k).threads[i]);
    }
    assert Acts(actions, k, i);
    j :| k <= j && actions(j) == Run(i);
    assert ActionStep(config, run, trace(j), trace(j + 1), actions(j));
    hide AllPass, Popped, BatchLength;
  }

  // ---------- The queue itself ----------

  /** Running a batch: once a check fails the rest is skipped. */
  method RunBatch<T>(run: T -> bool, batch: seq<T>, start: bool) returns (ok: bool)
    ensures ok == (start && AllPass(run, batch))
  {
    ok := start;
    for i := 0 to |batch|
      invariant ok == (start && forall k :: 0 <= k < i ==> run(batch[k]))
    {
      if ok {
        ok := run(batch[i]);
      }
    }
  }

  /** Whom Add notifies. */
  datatype Notice = Nobody | OneWorker | AllWorkers

  /** The shared fields, updated in place by the critical sections. */
  class Queue<T> {
    var queue: seq<T>
    var idle: int
    var total: int
    var allOk: bool
    var todo: int
    const config: Config

    function Snapshot(): Shared<T>
      reads this
    {
      Shared(queue, idle, total, allOk, todo)
    }

    constructor (batchSize: nat)
      ensures config == Config(batchSize, false)
      ensures Snapshot() == Shared([], 0, 0, true, 0)
    {
      queue, idle, total, allOk, todo := [], 0, 0, true, 0;
      config := Config(batchSize, false);
    }

    method Add(checks: seq<T>) returns (notice: Notice)
      modifies this
      ensures notice == if |checks| == 0 then Nobody else if |checks| == 1 then OneWorker else AllWorkers
      ensures Snapshot() == old(Snapshot()).(queue := old(queue) + checks, todo := old(todo) + |checks|)
    {
      for i := 0 to |checks|
        invariant Snapshot() == old(Snapshot()).(queue := old(queue) + checks[..i])
      {
        queue := queue + [checks[i]];
        assert checks[..i + 1] == checks[..i] + [checks[i]];
      }
      assert checks[..|checks|] == checks;
      todo := todo + |checks|;
      notice := Nobody;
      if |checks| == 1 {
        notice := OneWorker;
      } else if |checks| > 1 {
        notice := AllWorkers;
      }
    }

    /** Swap checks from the back of the queue into a batch. */
    method Take(n: nat) returns (batch: seq<T>)
      requires n <= |queue|
      modifies this`queue
      ensures batch == Popped(old(queue), n) && queue == old(queue)[..|old(queue)| - n]
    {
      batch := [];
      for i := 0 to n
        invariant |queue| == |old(queue)| - i && queue == old(queue)[..|old(queue)| - i]
        invariant batch + Popped(queue, n - i) == Popped(old(queue), n)
      {
        var back := queue[|queue| - 1];
        assert Popped(queue, n - i) == [back] + Popped(queue[..|queue| - 1], n - i - 1);
        batch := batch + [back];
        queue := queue[..|queue| - 1];
      }
    }

    /** The start of a critical section. */
    method HandBack(run: T -> bool, local: Local<T>, master: bool) returns (notify: bool)
      modifies this
      ensures Snapshot() == CleanUp(run, old(Snapshot()), local)
      ensures notify == NotifiesMaster(run, old(Snapshot()), local, master)
    {
      notify := false;
      match local {
        case Busy(batch, start) =>
          var ok := RunBatch(run, batch, start);
          allOk := allOk && ok;
          todo := todo - |batch|;
          notify := todo == 0 && !master;
        case Outside =>
          total := total + 1;
        case Asleep(_) =>
          idle := idle - 1;
      }
    }

    /** The rest of a critical section, up to the next wait, batch or return. */
    method MoveOn(master: bool) returns (next: Local<T>, returned: Option<bool>)
      requires total >= 0 && idle >= 0
      modifies this
      ensures Outcome(Snapshot(), next, returned) == Settle(config, old(Snapshot()), master)
    {
      hide Popped;
      if |queue| == 0 {
        if (master || config.quit) && todo == 0 {
          total := total - 1;
          returned := Some(allOk);
          if master {
            allOk := true;
          }
          return Outside, returned;
        }
        idle := idle + 1;
        return Asleep(false), None;
      }
      BatchFits(config, Snapshot());
      var n := Max(1, Min(config.batchSize, |queue| / (total + idle + 1)));
      var ok := allOk;
      var batch := Take(n);
      return Busy(batch, ok), None;
    }

    /** One round of Loop. */
    method Round(run: T -> bool, local: Local<T>, master: bool)
      returns (next: Local<T>, returned: Option<bool>, notify: bool)
      requires CleanUp(run, Snapshot(), local).total >= 0 && CleanUp(run, Snapshot(), local).idle >= 0
      modifies this
      ensures Outcome(Snapshot(), next, returned) == Section(config, run, old(Snapshot()), local, master)
      ensures notify == NotifiesMaster(run, old(Snapshot()), local, master)
      ensures next.Busy? ==> FairShare(|next.batch|, config, |old(queue)|, total, idle)
    {
      SectionTakesShare(config, run, Snapshot(), local, master);
      notify := HandBack(run, local, master);
      next, returned := MoveOn(master);
      hide FairShare, Section, CleanUp;
    }
  }
}
