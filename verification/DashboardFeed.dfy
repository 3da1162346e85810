/**
 From snapshots to the browser: snapshots are published into the ring
 (`apps/paper_backend/SsePublisher.cpp`), a reader polls it, and what the reader was given is read
 as one event stream.  Puts the ring, the printer and the stream reader together.
 */
module DashboardFeed {
  import opened Words
  import opened JsonPrinter
  import opened PrintedNumbers
  import opened Dashboard
  import opened EventStream
  import opened EventRing

  datatype Move = Show(s: ShownSnapshot) | Ask(maxCount: nat)

  function PostOf(s: ShownSnapshot): Post
    requires s.seqNo < TWO_TO_THE_64
  {
    Post(s.seqNo, FrameText(FrameOf(s)))
  }

  /** The snapshots carry their own numbers, each larger than the one before. */
  predicate Growing(moves: seq<Move>, latest: nat)
    decreases |moves|
  {
    if moves == [] then true
    else match moves[0]
    case Show(s) => latest < s.seqNo < TWO_TO_THE_64 && Growing(moves[1..], s.seqNo)
    case Ask(_) => Growing(moves[1..], latest)
  }

  function ActionsOf(moves: seq<Move>, latest: nat): seq<Action>
    requires Growing(moves, latest)
    decreases |moves|
  {
    if moves == [] then []
    else match moves[0]
    case Show(s) => [Send(PostOf(s))] + ActionsOf(moves[1..], s.seqNo)
    case Ask(maxCount) => [Poll(maxCount)] + ActionsOf(moves[1..], latest)
  }

  function Shown(moves: seq<Move>): seq<ShownSnapshot>
    decreases |moves|
  {
    if moves == [] then []
    else if moves[0].Show? then [moves[0].s] + Shown(moves[1..])
    else Shown(moves[1..])
  }

  /** The ring's events for these snapshots. */
  predicate AreEventsOf(events: seq<SseEvent>, ss: seq<ShownSnapshot>) {
    && |events| == |ss|
    && forall k | 0 <= k < |ss| :: events[k].seqNo == ss[k].seqNo && events[k].payload == FrameText(FrameOf(ss[k]))
  }

  // ---- The history is what was shown ----

  lemma ShownNext(sys: System, s: ShownSnapshot, before: seq<ShownSnapshot>)
    requires sys.ring.latestSeq < s.seqNo < TWO_TO_THE_64 && AreEventsOf(sys.history, before)
    ensures var next := Sent(sys, PostOf(s));
      Increasing(sys, PostOf(s)) && next.ring.latestSeq == s.seqNo && AreEventsOf(next.history, before + [s])
  {
    hide FrameText, FrameOf;
  }

  lemma {:induction false} RunShows(sys: System, moves: seq<Move>, before: seq<ShownSnapshot>)
    requires Growing(moves, sys.ring.latestSeq) && AreEventsOf(sys.history, before)
    ensures var actions := ActionsOf(moves, sys.ring.latestSeq);
      IncreasingRun(sys, actions) && AreEventsOf(Run(sys, actions).history, before + Shown(moves))
    decreases |moves|
  {
    hide FrameText, FrameOf, AreEventsOf, Sent, PostOf;
    if moves == [] {
      assert before + Shown(moves) == before;
    } else {
      var actions, rest := ActionsOf(moves, sys.ring.latestSeq), moves[1..];
      match moves[0]
      case Show(s) => {
        var next := Sent(sys, PostOf(s));
        ShownNext(sys, s, before);
        RunShows(next, rest, before + [s]);
        assert actions[1..] == ActionsOf(rest, s.seqNo);
        assert before + Shown(moves) == before + [s] + Shown(rest);
      }
      case Ask(maxCount) => {
        var next := AfterPoll(sys, maxCount);
        RunShows(next, rest, before);
        assert actions[1..] == ActionsOf(rest, sys.ring.latestSeq);
      }
    }
  }

  // ---- The stream of what was delivered ----

  /** The first `n` snapshots without the missed ones. */
  function SeenSnapshots(ss: seq<ShownSnapshot>, n: nat, missed: set<int>): seq<ShownSnapshot>
    requires n <= |ss|
  {
    if n == 0 then [] else SeenSnapshots(ss, n - 1, missed) + if n - 1 in missed then [] else [ss[n - 1]]
  }

  lemma {:induction false} SeenEventsAreOf(events: seq<SseEvent>, ss: seq<ShownSnapshot>, n: nat, missed: set<int>)
    requires AreEventsOf(events, ss) && n <= |ss|
    ensures AreEventsOf(Seen(events, n, missed), SeenSnapshots(ss, n, missed))
  {
    hide FrameText, FrameOf;
    if n > 0 { SeenEventsAreOf(events, ss, n - 1, missed); }
  }

  /** The bytes of the given events, one after the other. */
  function Payloads(events: seq<SseEvent>): string {
    if events == [] then "" else events[0].payload + Payloads(events[1..])
  }

  function FramesOf(ss: seq<ShownSnapshot>): seq<Frame> {
    if ss == [] then [] else [FrameOf(ss[0])] + FramesOf(ss[1..])
  }

  lemma {:induction false} FramesAt(ss: seq<ShownSnapshot>)
    ensures |FramesOf(ss)| == |ss| && forall k | 0 <= k < |ss| :: FramesOf(ss)[k] == FrameOf(ss[k])
    decreases |ss|
  {
    hide FrameOf;
    if ss != [] { FramesAt(ss[1..]); }
  }

  lemma {:induction false} PayloadsAreFrames(events: seq<SseEvent>, ss: seq<ShownSnapshot>)
    requires AreEventsOf(events, ss)
    ensures Payloads(events) == StreamText(FramesOf(ss))
    decreases |events|
  {
    hide FrameText, FrameOf;
    if events != [] {
      PayloadsAreFrames(events[1..], ss[1..]);
      assert FramesOf(ss)[1..] == FramesOf(ss[1..]);
    }
  }

  /**
   In every interleaving of publishing snapshots with growing numbers and polling with any batch sizes, what the
   reader was given reads as one `dashboard` event for each snapshot it did not miss, in order, with the ring's
   number as id and the snapshot's JSON as data.
   */
  lemma ReaderSeesTheSnapshots(capacity: nat, moves: seq<Move>)
    requires Growing(moves, 0)
    ensures var sys := Run(Start(capacity), ActionsOf(moves, 0));
      && 0 <= sys.passed <= |Shown(moves)|
      && var seen := SeenSnapshots(Shown(moves), sys.passed, sys.missed);
      && var events := ReadStream(Payloads(sys.delivered));
      && |events| == |sys.delivered| == |seen|
      && forall k | 0 <= k < |seen| ::
           && sys.delivered[k].seqNo == seen[k].seqNo
           && events[k] == Event("dashboard", SnapshotJson(seen[k]), LiteralText(Whole(sys.delivered[k].seqNo)))
  {
    hide FrameText, FrameOf, SnapshotJson, LiteralText, StreamText, ReadStream, Run, ActionsOf;
    var sys := Run(Start(capacity), ActionsOf(moves, 0));
    RunShows(Start(capacity), moves, []);
    assert [] + Shown(moves) == Shown(moves);
    ReaderSeesEachEventOnce(capacity, ActionsOf(moves, 0));
    var seen := SeenSnapshots(Shown(moves), sys.passed, sys.missed);
    SeenEventsAreOf(sys.history, Shown(moves), sys.passed, sys.missed);
    PayloadsAreFrames(sys.delivered, seen);
    FramesAt(seen);
    StreamReadsBack(seen, FramesOf(seen));
  }

  /** The printed id is the number the ring stores exactly when the snapshot has its own, or the counter wraps to zero. */
  lemma PrintedIdIsStored(r: Ring, s: ShownSnapshot)
    requires s.seqNo < TWO_TO_THE_64
    ensures FrameOf(s).id == LiteralText(Whole(Numbered(r, PostOf(s)).seqNo)) <==>
            s.seqNo != 0 || r.latestSeq == TWO_TO_THE_64 - 1
  {
    hide FrameText, SnapshotJson, LiteralText;
    var stored := Numbered(r, PostOf(s)).seqNo;
    if FrameOf(s).id == LiteralText(Whole(stored)) { WholeDetermined(s.seqNo, stored); }
  }

  /** A first snapshot without a number is stored as number one and printed with id 0. */
  lemma UnnumberedIdDiffers(capacity: nat, s: ShownSnapshot)
    requires s.seqNo == 0
    ensures var e := Numbered(NewRing(capacity), PostOf(s));
      e.seqNo == 1 && FrameOf(s).id == LiteralText(Whole(0)) != LiteralText(Whole(e.seqNo))
  {
    hide FrameText, SnapshotJson, LiteralText;
    PrintedIdIsStored(NewRing(capacity), s);
  }
}
