/**
 The bounded ring behind the dashboard stream (`apps/paper_backend/SsePublisher.cpp`) and a
 reader that polls it from the last sequence number it saw.  One action stands for one
 critical section of the publisher's mutex.
 */
module EventRing {
  import opened Words

  datatype SseEvent = SseEvent(seqNo: Uint64, payload: string)

  /** What is published: the snapshot's own number, zero if it has none, and the framed payload. */
  datatype Post = Post(seqNo: Uint64, payload: string)

  datatype RingState = RingState(capacity: nat, events: seq<SseEvent>, latestSeq: Uint64, dropped: Uint64)

  type Ring = r: RingState | r.capacity >= 1 && |r.events| <= r.capacity witness RingState(1, [], 0, 0)

  function NewRing(capacity: nat): Ring { RingState(if capacity == 0 then 1 else capacity, [], 0, 0) }

  /** A post without a number gets the successor of the latest one. */
  function Numbered(r: Ring, p: Post): SseEvent {
    SseEvent(if p.seqNo == 0 then Successor(r.latestSeq) else p.seqNo, p.payload)
  }

  function AfterPublish(r: Ring, p: Post): Ring {
    var e := Numbered(r, p);
    if |r.events| < r.capacity then RingState(r.capacity, r.events + [e], e.seqNo, r.dropped)
    else RingState(r.capacity, r.events[1..] + [e], e.seqNo, Successor(r.dropped))
  }

  /** The events from position `i` on that are newer than `since`, in order. */
  function Newer(events: seq<SseEvent>, i: nat, since: nat): seq<SseEvent>
    requires i <= |events|
    decreases |events| - i
  {
    if i == |events| then []
    else (if events[i].seqNo > since then [events[i]] else []) + Newer(events, i + 1, since)
  }

  function Take<T>(s: seq<T>, n: nat): seq<T> { if |s| <= n then s else s[..n] }

  function Retained(r: Ring, since: nat, maxCount: nat): seq<SseEvent> {
    Take(Newer(r.events, 0, since), maxCount)
  }

  class SsePublisher {
    const capacity: nat
    var events: seq<SseEvent>
    var latestSeq: Uint64
    var dropped: Uint64

    ghost predicate Valid()
      reads this
    {
      capacity >= 1 && |events| <= capacity
    }

    ghost function State(): Ring
      requires Valid()
      reads this
    {
      RingState(capacity, events, latestSeq, dropped)
    }

    constructor (capacity: nat)
      ensures Valid() && State() == NewRing(capacity)
    {
      this.capacity := if capacity == 0 then 1 else capacity;
      events, latestSeq, dropped := [], 0, 0;
    }

    method Publish(post: Post)
      requires Valid()
      modifies this
      ensures Valid() && State() == AfterPublish(old(State()), post)
    {
      var seqNo := if post.seqNo == 0 then Successor(latestSeq) else post.seqNo;
      latestSeq := seqNo;
      events := events + [SseEvent(seqNo, post.payload)];
      ghost var all := events;
      assert |old(events)| > 0 ==> all[1..] == old(events)[1..] + [SseEvent(seqNo, post.payload)];
      while |events| > capacity
        invariant latestSeq == seqNo
        invariant
          || (events == all && dropped == old(dropped))
          || (events == all[1..] && |events| == capacity && dropped == Successor(old(dropped)))
      {
        events := events[1..];
        dropped := Successor(dropped);
      }
    }

    method ReadSince(sinceSeq: nat, maxCount: nat) returns (out: seq<SseEvent>)
      requires Valid()
      ensures out == Retained(State(), sinceSeq, maxCount)
    {
      out := [];
      var i := 0;
      while i < |events|
        invariant i <= |events| && |out| <= maxCount
        invariant out + Newer(events, i, sinceSeq) == Newer(events, 0, sinceSeq)
      {
        if events[i].seqNo <= sinceSeq {
          i := i + 1;
          continue;
        }
        if |out| >= maxCount {
          break;
        }
        assert out + ([events[i]] + Newer(events, i + 1, sinceSeq)) == out + [events[i]] + Newer(events, i + 1, sinceSeq);
        out := out + [events[i]];
        i := i + 1;
      }
    }
  }

  // ---- The ring refines the unbounded history ----

  datatype Log = Log(ring: Ring, history: seq<SseEvent>)

  /** Publishing a list of posts, keeping everything that was ever published beside the ring. */
  function Published(capacity: nat, posts: seq<Post>): Log {
    if posts == [] then Log(NewRing(capacity), [])
    else
      var before := Published(capacity, posts[..|posts| - 1]);
      var p := posts[|posts| - 1];
      Log(AfterPublish(before.ring, p), before.history + [Numbered(before.ring, p)])
  }

  function Min(a: nat, b: nat): nat { if a < b then a else b }

  lemma SuccessorCounts(n: nat)
    ensures Successor(n % TWO_TO_THE_64) == (n + 1) % TWO_TO_THE_64
  {
  }

  /** A post with a number keeps it; one without gets the number after `previous`, modulo 2^64. */
  predicate IsNumber(seqNo: Uint64, p: Post, previous: Uint64) {
    seqNo == if p.seqNo != 0 then p.seqNo else (previous + 1) % 0x1_0000_0000_0000_0000
  }

  function NumberBefore(history: seq<SseEvent>, k: nat): Uint64
    requires k <= |history|
  {
    if k == 0 then 0 else history[k - 1].seqNo
  }

  predicate NumbersInTurn(history: seq<SseEvent>, posts: seq<Post>)
    requires |history| == |posts|
  {
    forall k | 0 <= k < |posts| :: IsNumber(history[k].seqNo, posts[k], NumberBefore(history, k))
  }

  /** The ring holds exactly the last events of the history, and counts all the others as dropped. */
  lemma {:induction false} RingHoldsTheLatest(capacity: nat, posts: seq<Post>)
    ensures var log := Published(capacity, posts);
      var kept := Min(|posts|, log.ring.capacity);
      && log.ring.capacity == (if capacity == 0 then 1 else capacity)
      && |log.history| == |posts|
      && log.ring.events == log.history[|posts| - kept..]
      && log.ring.dropped == (|posts| - kept) % TWO_TO_THE_64
      && log.ring.latestSeq == (if posts == [] then 0 else log.history[|posts| - 1].seqNo)
      && forall k | 0 <= k < |posts| :: log.history[k].payload == posts[k].payload
  {
    if posts != [] {
      var front := posts[..|posts| - 1];
      RingHoldsTheLatest(capacity, front);
      var before := Published(capacity, front).ring;
      if |front| >= before.capacity { SuccessorCounts(|front| - before.capacity); }
    }
  }

  lemma {:induction false} HistoryIsNumbered(capacity: nat, posts: seq<Post>)
    ensures var log := Published(capacity, posts);
      |log.history| == |posts| && NumbersInTurn(log.history, posts)
  {
    hide NumbersInTurn, AfterPublish;
    RingHoldsTheLatest(capacity, posts);
    if posts == [] {
      NothingNumbered([], []);
    } else {
      var front, p := posts[..|posts| - 1], posts[|posts| - 1];
      HistoryIsNumbered(capacity, front);
      RingHoldsTheLatest(capacity, front);
      var before := Published(capacity, front);
      OneMoreNumbered(before.history, front, before.ring, p);
      assert front + [p] == posts;
    }
  }

  lemma NothingNumbered(history: seq<SseEvent>, posts: seq<Post>)
    requires history == [] && posts == []
    ensures NumbersInTurn(history, posts)
  {
  }

  lemma OneMoreNumbered(history: seq<SseEvent>, posts: seq<Post>, r: Ring, p: Post)
    requires |history| == |posts| && NumbersInTurn(history, posts)
    requires r.latestSeq == if posts == [] then 0 else history[|posts| - 1].seqNo
    ensures NumbersInTurn(history + [Numbered(r, p)], posts + [p])
  {
    var all, sent := history + [Numbered(r, p)], posts + [p];
    forall k | 0 <= k < |sent| ensures IsNumber(all[k].seqNo, sent[k], NumberBefore(all, k)) {
      if k < |posts| {
        assert IsNumber(history[k].seqNo, posts[k], NumberBefore(history, k));
      } else {
        assert Successor(r.latestSeq) == (r.latestSeq + 1) % 0x1_0000_0000_0000_0000;
      }
    }
  }

  // ---- A polling reader ----

  datatype Action = Send(p: Post) | Poll(maxCount: nat)

  /**
   The publisher, the reader's cursor and what the reader was given; and, for the statements only:
   everything published, how much of it lies at or below the cursor, and the positions of the
   events that were evicted before the cursor reached them.
   */
  datatype System = System(
    ring: Ring, cursor: Uint64, delivered: seq<SseEvent>,
    history: seq<SseEvent>, passed: int, missed: set<int>)

  function Start(capacity: nat): System { System(NewRing(capacity), 0, [], [], 0, {}) }

  /** How many events have left the ring. */
  function Gone(s: System): int { |s.history| - |s.ring.events| }

  function Max(a: int, b: int): int { if a < b then b else a }

  function Sent(s: System, p: Post): System {
    var missed := if |s.ring.events| == s.ring.capacity && s.passed <= Gone(s) then s.missed + {Gone(s)} else s.missed;
    s.(ring := AfterPublish(s.ring, p), history := s.history + [Numbered(s.ring, p)], missed := missed)
  }

  function Polled(s: System, maxCount: nat): seq<SseEvent> { Retained(s.ring, s.cursor, maxCount) }

  function AfterPoll(s: System, maxCount: nat): System {
    var out := Polled(s, maxCount);
    if out == [] then s
    else
      s.(cursor := out[|out| - 1].seqNo, delivered := s.delivered + out, passed := Max(s.passed, Gone(s)) + |out|)
  }

  function Run(s: System, actions: seq<Action>): System
    decreases |actions|
  {
    if actions == [] then s
    else
      var next := match actions[0] case Send(p) => Sent(s, p) case Poll(maxCount) => AfterPoll(s, maxCount);
      Run(next, actions[1..])
  }

  /** The publisher hands out increasing numbers: a larger one, or the successor while 64 bits last. */
  predicate Increasing(s: System, p: Post) { Numbered(s.ring, p).seqNo > s.ring.latestSeq }

  predicate IncreasingRun(s: System, actions: seq<Action>)
    decreases |actions|
  {
    if actions == [] then true
    else match actions[0]
    case Send(p) => Increasing(s, p) && IncreasingRun(Sent(s, p), actions[1..])
    case Poll(maxCount) => IncreasingRun(AfterPoll(s, maxCount), actions[1..])
  }

  predicate Sorted(events: seq<SseEvent>) {
    forall i, j | 0 <= i < j < |events| :: events[i].seqNo < events[j].seqNo
  }

  /** Positive, strictly growing numbers, none above the bound. */
  predicate Ordered(events: seq<SseEvent>, bound: int)
    decreases |events|
  {
    if events == [] then true
    else
      var e := events[|events| - 1];
      0 < e.seqNo <= bound && Ordered(events[..|events| - 1], e.seqNo - 1)
  }

  lemma {:induction false} OrderedIsSorted(events: seq<SseEvent>, bound: int)
    requires Ordered(events, bound)
    ensures Sorted(events) && forall k | 0 <= k < |events| :: 0 < events[k].seqNo <= bound
    decreases |events|
  {
    if events != [] {
      var front, e := events[..|events| - 1], events[|events| - 1];
      OrderedIsSorted(front, e.seqNo - 1);
      assert events == front + [e];
    }
  }

  lemma OrderedGrows(events: seq<SseEvent>, bound: int, e: SseEvent)
    requires Ordered(events, bound) && 0 <= bound < e.seqNo
    ensures Ordered(events + [e], e.seqNo)
  {
    assert (events + [e])[..|events|] == events;
  }

  /** The ring is the end of the history, and is full once anything has left it. */
  ghost predicate Window(s: System) {
    && 0 <= Gone(s) && s.ring.events == s.history[Gone(s)..]
    && (Gone(s) > 0 ==> |s.ring.events| == s.ring.capacity)
  }

  /** The cursor is the number of the last event passed. */
  ghost predicate CursorHolds(s: System) {
    && 0 <= s.passed <= |s.history|
    && s.cursor == (if s.passed == 0 then 0 else s.history[s.passed - 1].seqNo)
  }

  ghost predicate Consistent(s: System) {
    Window(s) && Ordered(s.history, s.ring.latestSeq) && CursorHolds(s)
  }

  /** The first `n` events without the missed ones. */
  function Seen(events: seq<SseEvent>, n: nat, missed: set<int>): seq<SseEvent>
    requires n <= |events|
  {
    if n == 0 then []
    else Seen(events, n - 1, missed) + if n - 1 in missed then [] else [events[n - 1]]
  }

  /** What was passed was delivered or missed; what left the ring unread was missed; nothing in the ring was. */
  ghost predicate Accounted(s: System) {
    && 0 <= s.passed <= |s.history|
    && s.delivered == Seen(s.history, s.passed, s.missed)
    && (forall k | s.passed <= k < Gone(s) :: k in s.missed)
    && (forall k | k in s.missed :: 0 <= k < Gone(s))
  }

  /** A poll returns the next events that are still there. */
  ghost predicate PollsNext(s: System, maxCount: nat) {
    var from := Max(s.passed, Gone(s));
    0 <= from <= |s.history| && Polled(s, maxCount) == s.history[from..Min(from + maxCount, |s.history|)]
  }

  lemma PolledIs(s: System, maxCount: nat)
    requires Consistent(s)
    ensures PollsNext(s, maxCount)
  {
    NewerOfHistory(s.history, s.ring.latestSeq, Gone(s), s.passed, s.cursor);
    RetainedOf(s.ring, s.cursor, maxCount, s.history, Gone(s), Max(s.passed, Gone(s)));
  }

  lemma RetainedOf(r: Ring, since: nat, maxCount: nat, history: seq<SseEvent>, gone: nat, from: nat)
    requires gone <= from <= |history| && r.events == history[gone..]
    requires Newer(r.events, 0, since) == history[from..]
    ensures Retained(r, since, maxCount) == history[from..Min(from + maxCount, |history|)]
  {
  }

  lemma NewerOfHistory(history: seq<SseEvent>, bound: int, gone: nat, passed: nat, cursor: nat)
    requires Ordered(history, bound) && gone <= |history| && passed <= |history|
    requires cursor == if passed == 0 then 0 else history[passed - 1].seqNo
    ensures Newer(history[gone..], 0, cursor) == history[Max(passed, gone)..]
  {
    var from := Max(passed, gone);
    OrderedIsSorted(history, bound);
    CursorDivides(history, gone, passed, cursor);
    NewerIsSuffix(history[gone..], 0, cursor, from - gone);
    assert history[gone..][from - gone..] == history[from..];
  }

  /** Of the events from `gone` on, those above the cursor are the ones not passed yet. */
  lemma CursorDivides(history: seq<SseEvent>, gone: nat, passed: nat, cursor: nat)
    requires Sorted(history) && gone <= |history| && passed <= |history|
    requires forall k | 0 <= k < |history| :: 0 < history[k].seqNo
    requires cursor == if passed == 0 then 0 else history[passed - 1].seqNo
    ensures var events := history[gone..];
      forall k | 0 <= k < |events| :: events[k].seqNo > cursor <==> k >= Max(passed, gone) - gone
  {
    forall k | 0 <= k < |history[gone..]|
      ensures history[gone..][k].seqNo > cursor <==> k >= Max(passed, gone) - gone
    {
      assert history[gone..][k] == history[gone + k];
    }
  }

  lemma {:induction false} NewerIsSuffix(events: seq<SseEvent>, i: nat, since: nat, j: nat)
    requires i <= |events| && j <= |events|
    requires forall k | 0 <= k < |events| :: events[k].seqNo > since <==> k >= j
    ensures Newer(events, i, since) == events[Max(i, j)..]
    decreases |events| - i
  {
    if i < |events| {
      NewerIsSuffix(events, i + 1, since, j);
      assert events[i..] == [events[i]] + events[i + 1..];
    }
  }

  lemma {:induction false} SeenUnchanged(a: seq<SseEvent>, b: seq<SseEvent>, n: nat, missed: set<int>, missed': set<int>)
    requires n <= |a| && n <= |b| && forall k | 0 <= k < n :: a[k] == b[k] && (k in missed <==> k in missed')
    ensures Seen(a, n, missed) == Seen(b, n, missed')
  {
    if n > 0 { SeenUnchanged(a, b, n - 1, missed, missed'); }
  }

  /** Past missed events nothing is seen. */
  lemma {:induction false} SeenMissed(events: seq<SseEvent>, m: nat, n: nat, missed: set<int>)
    requires m <= n <= |events| && forall k | m <= k < n :: k in missed
    ensures Seen(events, n, missed) == Seen(events, m, missed)
    decreases n
  {
    if m < n { SeenMissed(events, m, n - 1, missed); }
  }

  /** Past events that were not missed everything is seen. */
  lemma {:induction false} SeenDelivered(events: seq<SseEvent>, m: nat, n: nat, missed: set<int>)
    requires m <= n <= |events| && forall k | m <= k < n :: k !in missed
    ensures Seen(events, n, missed) == Seen(events, m, missed) + events[m..n]
    decreases n
  {
    if m < n {
      SeenDelivered(events, m, n - 1, missed);
      assert events[m..n] == events[m..n - 1] + [events[n - 1]];
    }
  }

  lemma SendKeepsConsistent(s: System, p: Post)
    requires Consistent(s) && Increasing(s, p)
    ensures Consistent(Sent(s, p))
  {
    var e, t := Numbered(s.ring, p), Sent(s, p);
    OrderedGrows(s.history, s.ring.latestSeq, e);
    SuffixGrows(s.history, Gone(s), s.ring.events, e);
    assert t.ring.events == t.history[Gone(t)..];
  }

  lemma SuffixGrows(history: seq<SseEvent>, gone: nat, events: seq<SseEvent>, e: SseEvent)
    requires gone <= |history| && events == history[gone..]
    ensures events + [e] == (history + [e])[gone..]
    ensures events != [] ==> events[1..] + [e] == (history + [e])[gone + 1..]
  {
  }

  lemma SendKeepsAccounted(s: System, p: Post)
    requires Accounted(s) && (Gone(s) > 0 ==> |s.ring.events| == s.ring.capacity) && Gone(s) >= 0
    ensures Accounted(Sent(s, p))
  {
    var t := Sent(s, p);
    SeenUnchanged(s.history, t.history, s.passed, s.missed, t.missed);
  }

  lemma PollKeepsConsistent(s: System, maxCount: nat)
    requires Consistent(s)
    ensures Consistent(AfterPoll(s, maxCount))
  {
    PolledIs(s, maxCount);
  }

  lemma PollKeepsAccounted(s: System, maxCount: nat)
    requires Accounted(s) && PollsNext(s, maxCount)
    ensures Accounted(AfterPoll(s, maxCount))
  {
    var from, t := Max(s.passed, Gone(s)), AfterPoll(s, maxCount);
    if t.passed > from { SeenAfterPoll(s.history, s.passed, from, t.passed, s.missed); }
  }

  /** The events evicted unread are skipped, the ones that follow are delivered. */
  lemma SeenAfterPoll(events: seq<SseEvent>, passed: nat, from: nat, to: nat, missed: set<int>)
    requires passed <= from <= to <= |events|
    requires (forall k | passed <= k < from :: k in missed) && (forall k | from <= k < to :: k !in missed)
    ensures Seen(events, to, missed) == Seen(events, passed, missed) + events[from..to]
  {
    SeenMissed(events, passed, from, missed);
    SeenDelivered(events, from, to, missed);
  }

  lemma {:induction false} RunKeepsAccounts(s: System, actions: seq<Action>)
    requires Consistent(s) && Accounted(s) && IncreasingRun(s, actions)
    ensures Consistent(Run(s, actions)) && Accounted(Run(s, actions))
    decreases |actions|
  {
    if actions != [] {
      match actions[0]
      case Send(p) =>
        SendKeepsConsistent(s, p);
        SendKeepsAccounted(s, p);
        RunKeepsAccounts(Sent(s, p), actions[1..]);
      case Poll(maxCount) =>
        PollKeepsConsistent(s, maxCount);
        PolledIs(s, maxCount);
        PollKeepsAccounted(s, maxCount);
        RunKeepsAccounts(AfterPoll(s, maxCount), actions[1..]);
    }
  }

  /**
   In every interleaving of posts and polls, the reader has been given, once each and in order, exactly
   the events at or below its cursor that were not evicted before it reached them.
   */
  lemma ReaderSeesEachEventOnce(capacity: nat, actions: seq<Action>)
    requires IncreasingRun(Start(capacity), actions)
    ensures var s := Run(Start(capacity), actions);
      && 0 <= s.passed <= |s.history|
      && s.delivered == Seen(s.history, s.passed, s.missed)
      && (forall k | 0 <= k < |s.history| :: s.history[k].seqNo <= s.cursor <==> k < s.passed)
      && (forall k | k in s.missed :: 0 <= k < Gone(s))
      && Sorted(s.delivered)
  {
    RunKeepsAccounts(Start(capacity), actions);
    var s := Run(Start(capacity), actions);
    OrderedIsSorted(s.history, s.ring.latestSeq);
    SeenIsSorted(s.history, s.passed, s.missed);
  }

  lemma {:induction false} SeenIsSorted(events: seq<SseEvent>, n: nat, missed: set<int>)
    requires Sorted(events) && n <= |events|
    ensures Sorted(Seen(events, n, missed))
    ensures forall i | 0 <= i < |Seen(events, n, missed)| :: n > 0 && Seen(events, n, missed)[i].seqNo <= events[n - 1].seqNo
  {
    if n > 0 { SeenIsSorted(events, n - 1, missed); }
  }

  /** When a poll for at least one event comes back empty, every event ever published was delivered or missed. */
  lemma EmptyPollMeansCaughtUp(capacity: nat, actions: seq<Action>, maxCount: nat)
    requires IncreasingRun(Start(capacity), actions) && maxCount >= 1
    requires Polled(Run(Start(capacity), actions), maxCount) == []
    ensures var s := Run(Start(capacity), actions);
      s.delivered == Seen(s.history, |s.history|, s.missed)
  {
    RunKeepsAccounts(Start(capacity), actions);
    var s := Run(Start(capacity), actions);
    PolledIs(s, maxCount);
    SeenMissed(s.history, s.passed, |s.history|, s.missed);
  }

  /** A post without a number keeps the numbers growing exactly while the counter has a successor. */
  lemma UnnumberedPostIncreases(s: System, payload: string)
    ensures Increasing(s, Post(0, payload)) <==> s.ring.latestSeq + 1 < TWO_TO_THE_64
  {
  }
}
