/**
 The chunked log backfill of `tools/chain_ws_http_parity_smoke.cpp`: a block interval is asked
 for in ranges of at most `chunk` blocks, in 64-bit arithmetic, with block numbers sent as
 hexadecimal quantities.
 */
module Backfill {
  import opened Words

  const MAX: Uint64 := TWO_TO_THE_64 - 1

  datatype Range = Range(from: Uint64, upTo: Uint64)

  /** The last block of the next request; the sum wraps around. */
  function ChunkEnd(block: Uint64, upTo: Uint64, chunk: Uint64): Uint64
    requires chunk >= 1
  {
    var sum := block + chunk - 1;
    var end := if sum < TWO_TO_THE_64 then sum else sum - TWO_TO_THE_64;
    if upTo < end then upTo else end
  }

  /** The first `n` requests of the loop that stands at `block`. */
  function Requests(block: Uint64, upTo: Uint64, chunk: Uint64, n: nat): seq<Range>
    requires chunk >= 1
    decreases n
  {
    if n == 0 || block > upTo then []
    else
      var end := ChunkEnd(block, upTo, chunk);
      [Range(block, end)] + if end == MAX then [] else Requests(end + 1, upTo, chunk, n - 1)
  }

  /** Consecutive, non-empty ranges whose union is exactly `[from, to]`. */
  predicate Partitions(rs: seq<Range>, from: nat, upTo: nat)
    decreases |rs|
  {
    if rs == [] then from > upTo
    else rs[0].from == from && from <= rs[0].upTo <= upTo && Partitions(rs[1..], rs[0].upTo + 1, upTo)
  }

  predicate AtMost(rs: seq<Range>, chunk: nat) {
    forall k | 0 <= k < |rs| :: rs[k].upTo - rs[k].from < chunk
  }

  /** Every range but the last has exactly `chunk` blocks. */
  predicate FullBeforeLast(rs: seq<Range>, chunk: nat) {
    forall k | 0 <= k < |rs| - 1 :: rs[k].upTo - rs[k].from + 1 == chunk
  }

  /** Where the last range starts if nothing wraps. */
  function LastStart(from: nat, upTo: nat, chunk: nat): nat
    requires from <= upTo && chunk >= 1
  {
    upTo - (upTo - from) % chunk
  }

  /** The sum that computes the end of the last range fits in 64 bits. */
  predicate Fits(from: nat, upTo: nat, chunk: nat)
    requires chunk >= 1
  {
    from <= upTo ==> LastStart(from, upTo, chunk) + chunk - 1 < TWO_TO_THE_64
  }

  lemma LastStartSteps(from: nat, upTo: nat, chunk: nat)
    requires chunk >= 1 && from + chunk <= upTo
    ensures LastStart(from + chunk, upTo, chunk) == LastStart(from, upTo, chunk)
  {
    ModuloStep(upTo - from, chunk);
  }

  lemma ModuloStep(n: nat, m: nat)
    requires m >= 1 && n >= m
    ensures (n - m) % m == n % m
  {
    var q, r := (n - m) / m, (n - m) % m;
    assert n == (q + 1) * m + r;
    QuotientIsUnique(n, m, q + 1, r);
  }

  /** The simple sufficient condition: the interval's end leaves room for one more chunk. */
  lemma RoomForOneMoreChunkFits(from: nat, upTo: nat, chunk: nat)
    requires chunk >= 1 && upTo + chunk - 1 < TWO_TO_THE_64
    ensures Fits(from, upTo, chunk)
  {
  }

  // ---- The loop ----

  /** What the chain holds in the blocks of a range, block by block. */
  function Query<Log>(logsAt: nat -> seq<Log>, from: nat, upTo: nat): seq<Log>
    decreases upTo + 1 - from
  {
    if from > upTo then [] else logsAt(from) + Query(logsAt, from + 1, upTo)
  }

  lemma {:induction false} QuerySplits<Log>(logsAt: nat -> seq<Log>, from: nat, mid: nat, upTo: nat)
    requires from <= mid + 1 && mid <= upTo
    ensures Query(logsAt, from, mid) + Query(logsAt, mid + 1, upTo) == Query(logsAt, from, upTo)
    decreases mid + 1 - from
  {
    if from <= mid {
      QuerySplits(logsAt, from + 1, mid, upTo);
      assert logsAt(from) + (Query(logsAt, from + 1, mid) + Query(logsAt, mid + 1, upTo))
          == Query(logsAt, from, mid) + Query(logsAt, mid + 1, upTo);
    }
  }

  /** The logs of each range, one range after the other; an inverted range has none. */
  function Collected<Log>(logsAt: nat -> seq<Log>, rs: seq<Range>): seq<Log> {
    if rs == [] then [] else Query(logsAt, rs[0].from, rs[0].upTo) + Collected(logsAt, rs[1..])
  }

  lemma {:induction false} CollectedSnoc<Log>(logsAt: nat -> seq<Log>, rs: seq<Range>, r: Range)
    ensures Collected(logsAt, rs + [r]) == Collected(logsAt, rs) + Query(logsAt, r.from, r.upTo)
    decreases |rs|
  {
    var all := rs + [r];
    if rs == [] {
      assert all[1..] == [];
    } else {
      assert all[1..] == rs[1..] + [r];
      CollectedSnoc(logsAt, rs[1..], r);
    }
  }

  /** The logs of a partition are those of one query over the whole interval. */
  lemma {:induction false} PartitionsCollect<Log>(logsAt: nat -> seq<Log>, rs: seq<Range>, from: nat, upTo: nat)
    requires Partitions(rs, from, upTo)
    ensures Collected(logsAt, rs) == Query(logsAt, from, upTo)
    decreases |rs|
  {
    if rs != [] {
      PartitionsCollect(logsAt, rs[1..], rs[0].upTo + 1, upTo);
      QuerySplits(logsAt, from, rs[0].upTo, upTo);
    }
  }

  function AtLeastOne(chunk: Uint64): Uint64 { if chunk < 1 then 1 else chunk }

  /**
   The loop of `http_get_logs` against a node that answers the first `answered` requests; one more fails and
   ends the call.  The answered requests are those of the loop whatever wraps.  Given time, they are an exact
   partition of the interval if and only if the last end fits in 64 bits, and then the call succeeds with the
   logs of one query over the whole interval.
   */
  method HttpGetLogs<Log>(fromBlock: Uint64, toBlock: Uint64, httpBlockChunk: Uint64, logsAt: nat -> seq<Log>,
                          answered: nat)
    returns (ok: bool, logs: seq<Log>, requested: seq<Range>)
    ensures requested == Requests(fromBlock, toBlock, AtLeastOne(httpBlockChunk), answered)
    ensures httpBlockChunk >= 1 ==> AtMost(requested, httpBlockChunk)
    ensures httpBlockChunk == 0 ==> AtMost(requested, 1)
    ensures httpBlockChunk >= 1 && Fits(fromBlock, toBlock, httpBlockChunk) ==> FullBeforeLast(requested, httpBlockChunk)
    ensures httpBlockChunk == 0 ==> FullBeforeLast(requested, 1)
    ensures Fits(fromBlock, toBlock, AtLeastOne(httpBlockChunk)) ==> (ok <==> Partitions(requested, fromBlock, toBlock))
    ensures !ok ==> |requested| == answered
    ensures logs == Collected(logsAt, requested)
    ensures Partitions(requested, fromBlock, toBlock) ==> logs == Query(logsAt, fromBlock, toBlock)
    ensures toBlock - fromBlock < answered ==>
              (Partitions(requested, fromBlock, toBlock) <==> Fits(fromBlock, toBlock, AtLeastOne(httpBlockChunk)))
    ensures ok <==> Ends(fromBlock, toBlock, AtLeastOne(httpBlockChunk), answered)
    ensures toBlock - fromBlock < answered && Fits(fromBlock, toBlock, AtLeastOne(httpBlockChunk)) ==> ok
  {
    hide Partitions, AtMost, FullBeforeLast, Fits, Query, Requests, Ends;
    var chunk: Uint64 := if httpBlockChunk < 1 then 1 else httpBlockChunk;
    ok, logs, requested := true, [], [];
    if httpBlockChunk == 0 { OneBlockFits(fromBlock, toBlock); }
    WhatWasAnswered(fromBlock, toBlock, chunk, logsAt, answered);
    if toBlock < fromBlock {
      RequestsTurn(requested, fromBlock, toBlock, chunk, answered);
      return;
    }
    var block: Uint64 := fromBlock;
    while block <= toBlock
      invariant ok && |requested| <= answered && logs == Collected(logsAt, requested)
      invariant requested + Requests(block, toBlock, chunk, answered - |requested|)
                == Requests(fromBlock, toBlock, chunk, answered)
      invariant Ends(block, toBlock, chunk, answered - |requested|) <==> Ends(fromBlock, toBlock, chunk, answered)
      decreases answered - |requested|, toBlock + 1 - block
    {
      RequestsTurn(requested, block, toBlock, chunk, answered - |requested|);
      if |requested| == answered {
        return false, logs, requested;
      }
      var end := ChunkEnd(block, toBlock, chunk);
      CollectedSnoc(logsAt, requested, Range(block, end));
      logs := logs + Query(logsAt, block, end);
      requested := requested + [Range(block, end)];
      if end == MAX {
        return;
      }
      block := end + 1;
    }
    RequestsTurn(requested, block, toBlock, chunk, answered - |requested|);
  }

  /** The loop comes to its end within `n` requests. */
  predicate Ends(block: Uint64, upTo: Uint64, chunk: Uint64, n: nat)
    requires chunk >= 1
    decreases n
  {
    block > upTo || (n > 0 && var end := ChunkEnd(block, upTo, chunk); end == MAX || Ends(end + 1, upTo, chunk, n - 1))
  }

  /** One turn of the loop, with the ranges asked for so far in front. */
  lemma RequestsTurn(before: seq<Range>, block: Uint64, upTo: Uint64, chunk: Uint64, n: nat)
    requires chunk >= 1
    ensures block > upTo ==> before + Requests(block, upTo, chunk, n) == before && Ends(block, upTo, chunk, n)
    ensures block <= upTo && n == 0 ==> before + Requests(block, upTo, chunk, n) == before && !Ends(block, upTo, chunk, n)
    ensures block <= upTo && n > 0 ==>
      var end := ChunkEnd(block, upTo, chunk);
      var after := before + [Range(block, end)];
      && (end == MAX ==> before + Requests(block, upTo, chunk, n) == after && Ends(block, upTo, chunk, n))
      && (end != MAX ==> before + Requests(block, upTo, chunk, n) == after + Requests(end + 1, upTo, chunk, n - 1))
      && (end != MAX ==> (Ends(block, upTo, chunk, n) <==> Ends(end + 1, upTo, chunk, n - 1)))
  {
    hide ChunkEnd;
    if block > upTo || n == 0 {
      assert before + [] == before;
    } else {
      var r := Range(block, ChunkEnd(block, upTo, chunk));
      RequestsHead(block, upTo, chunk, n);
      var rs := Requests(block, upTo, chunk, n);
      Regroup(before, r, rs);
      if r.upTo == MAX { assert before + [r] + [] == before + [r]; }
    }
  }

  lemma Regroup(before: seq<Range>, r: Range, rs: seq<Range>)
    requires rs != [] && rs[0] == r
    ensures before + rs == before + [r] + rs[1..]
  {
  }

  /** The first request, and the ones after it. */
  lemma RequestsHead(block: Uint64, upTo: Uint64, chunk: Uint64, n: nat)
    requires chunk >= 1 && block <= upTo && n > 0
    ensures var rs, end := Requests(block, upTo, chunk, n), ChunkEnd(block, upTo, chunk);
      rs != [] && rs[0] == Range(block, end) && rs[1..] == if end == MAX then [] else Requests(end + 1, upTo, chunk, n - 1)
  {
    hide ChunkEnd;
    var end := ChunkEnd(block, upTo, chunk);
    TailOf(Range(block, end), if end == MAX then [] else Requests(end + 1, upTo, chunk, n - 1));
  }

  lemma TailOf(r: Range, rest: seq<Range>)
    ensures ([r] + rest)[0] == r && ([r] + rest)[1..] == rest
  {
  }

  lemma {:induction false} FittingEnds(block: Uint64, upTo: Uint64, chunk: Uint64, n: nat)
    requires chunk >= 1 && block <= upTo && Fits(block, upTo, chunk) && upTo - block < n
    ensures Ends(block, upTo, chunk, n)
    decreases upTo as int - block as int
  {
    NextStart(block, upTo, chunk);
    var end := ChunkEnd(block, upTo, chunk);
    if end < upTo { FittingEnds(end + 1, upTo, chunk, n - 1); }
  }

  lemma NextStart(block: Uint64, upTo: Uint64, chunk: Uint64)
    requires chunk >= 1 && block <= upTo && Fits(block, upTo, chunk)
    ensures var end := ChunkEnd(block, upTo, chunk);
      block <= end <= upTo && (end < upTo ==> LastStart(end + 1, upTo, chunk) == LastStart(block, upTo, chunk))
  {
    StartFits(block, upTo, chunk);
    if ChunkEnd(block, upTo, chunk) < upTo { LastStartSteps(block, upTo, chunk); }
  }

  /** What holds of the answered requests, however many there are. */
  lemma WhatWasAnswered<Log>(from: Uint64, upTo: Uint64, chunk: Uint64, logsAt: nat -> seq<Log>, n: nat)
    requires chunk >= 1
    ensures var rs := Requests(from, upTo, chunk, n);
      && AtMost(rs, chunk)
      && (Partitions(rs, from, upTo) ==> Collected(logsAt, rs) == Query(logsAt, from, upTo))
      && (upTo - from < n ==> (Partitions(rs, from, upTo) <==> Fits(from, upTo, chunk)))
      && (upTo - from < n && Fits(from, upTo, chunk) ==> Ends(from, upTo, chunk, n))
      && (Fits(from, upTo, chunk) ==> FullBeforeLast(rs, chunk))
      && (Fits(from, upTo, chunk) ==> (Ends(from, upTo, chunk, n) <==> Partitions(rs, from, upTo)))
  {
    var rs := Requests(from, upTo, chunk, n);
    RequestsAtMost(from, upTo, chunk, n);
    if from <= upTo && Fits(from, upTo, chunk) { FittingIsCutEvenly(from, upTo, chunk, n); }
    if Partitions(rs, from, upTo) { PartitionsCollect(logsAt, rs, from, upTo); }
    if from <= upTo && upTo - from < n {
      if Fits(from, upTo, chunk) {
        FittingPartitions(from, upTo, chunk, n);
        FittingEnds(from, upTo, chunk, n);
      } else {
        WrappingNeverPartitions(from, upTo, chunk, n);
      }
    }
  }

  lemma {:induction false} RequestsAtMost(block: Uint64, upTo: Uint64, chunk: Uint64, n: nat)
    requires chunk >= 1
    ensures AtMost(Requests(block, upTo, chunk, n), chunk)
    decreases n
  {
    if n > 0 && block <= upTo {
      var end := ChunkEnd(block, upTo, chunk);
      if end != MAX { RequestsAtMost(end + 1, upTo, chunk, n - 1); }
    }
  }

  lemma OneBlockFits(from: Uint64, upTo: Uint64)
    ensures Fits(from, upTo, 1)
  {
  }

  /** As long as nothing wraps, every request but the last is full, and the loop ends with the interval. */
  lemma {:induction false} FittingIsCutEvenly(block: Uint64, upTo: Uint64, chunk: Uint64, n: nat)
    requires chunk >= 1 && block <= upTo && Fits(block, upTo, chunk)
    ensures var rs := Requests(block, upTo, chunk, n);
      FullBeforeLast(rs, chunk) && (Ends(block, upTo, chunk, n) <==> Partitions(rs, block, upTo))
    decreases n
  {
    hide ChunkEnd, Fits, FullBeforeLast;
    var rs, end := Requests(block, upTo, chunk, n), ChunkEnd(block, upTo, chunk);
    if n > 0 {
      FullStep(block, upTo, chunk);
      RequestsHead(block, upTo, chunk, n);
    }
    if n > 0 && end < upTo {
      FittingIsCutEvenly(end + 1, upTo, chunk, n - 1);
      FullAgain(rs, chunk);
    } else {
      AtMostOneIsFull(rs, chunk);
    }
  }

  lemma AtMostOneIsFull(rs: seq<Range>, chunk: nat)
    requires rs == [] || rs[1..] == []
    ensures FullBeforeLast(rs, chunk)
  {
  }

  lemma FullAgain(rs: seq<Range>, chunk: nat)
    requires rs != [] && rs[0].upTo - rs[0].from + 1 == chunk && FullBeforeLast(rs[1..], chunk)
    ensures FullBeforeLast(rs, chunk)
  {
    assert forall k | 0 < k < |rs| :: rs[k] == rs[1..][k - 1];
  }

  lemma FullStep(block: Uint64, upTo: Uint64, chunk: Uint64)
    requires chunk >= 1 && block <= upTo && Fits(block, upTo, chunk)
    ensures var end := ChunkEnd(block, upTo, chunk);
      block <= end <= upTo && (end < upTo ==> end - block + 1 == chunk && Fits(end + 1, upTo, chunk))
  {
    StartFits(block, upTo, chunk);
    NextStart(block, upTo, chunk);
  }

  lemma StartFits(block: Uint64, upTo: Uint64, chunk: Uint64)
    requires chunk >= 1 && block <= upTo && Fits(block, upTo, chunk)
    ensures block <= ChunkEnd(block, upTo, chunk) && (upTo - block < chunk ==> ChunkEnd(block, upTo, chunk) == upTo)
    ensures block + chunk - 1 < TWO_TO_THE_64
  {
    if upTo - block < chunk {
      QuotientIsUnique(upTo - block, chunk, 0, upTo - block);
    } else {
      LastStartSteps(block, upTo, chunk);
    }
  }

  // ---- The condition is exact ----

  /** Without room for the last end no number of requests is a partition. */
  lemma {:induction false} WrappingNeverPartitions(block: Uint64, upTo: Uint64, chunk: Uint64, n: nat)
    requires chunk >= 1 && block <= upTo && !Fits(block, upTo, chunk)
    ensures !Partitions(Requests(block, upTo, chunk, n), block, upTo)
    decreases n
  {
    if n > 0 {
      var rs, end := Requests(block, upTo, chunk, n), ChunkEnd(block, upTo, chunk);
      RequestsHead(block, upTo, chunk, n);
      if block <= end {
        WrappingStep(block, upTo, chunk);
        WrappingNeverPartitions(end + 1, upTo, chunk, n - 1);
      }
    }
  }

  predicate IsInverted(r: Range) { r.upTo < r.from }

  /** Given time, the loop does ask for an inverted range whenever the last end does not fit. */
  lemma {:induction false} WrappingAsksInverted(block: Uint64, upTo: Uint64, chunk: Uint64, n: nat)
    requires chunk >= 1 && block <= upTo && !Fits(block, upTo, chunk) && upTo - block < n
    ensures var rs := Requests(block, upTo, chunk, n); exists k :: 0 <= k < |rs| && IsInverted(rs[k])
    decreases n
  {
    hide Requests, ChunkEnd, Fits;
    var rs, end := Requests(block, upTo, chunk, n), ChunkEnd(block, upTo, chunk);
    RequestsHead(block, upTo, chunk, n);
    if end < block {
      assert IsInverted(rs[0]);
    } else {
      WrappingStep(block, upTo, chunk);
      var rest := Requests(end + 1, upTo, chunk, n - 1);
      WrappingAsksInverted(end + 1, upTo, chunk, n - 1);
      var k :| 0 <= k < |rest| && IsInverted(rest[k]);
      assert rs[k + 1] == rs[1..][k];
    }
  }

  /** A range that is not inverted is followed by another start from which the last end does not fit. */
  lemma WrappingStep(block: Uint64, upTo: Uint64, chunk: Uint64)
    requires chunk >= 1 && block <= upTo && !Fits(block, upTo, chunk) && block <= ChunkEnd(block, upTo, chunk)
    ensures var end := ChunkEnd(block, upTo, chunk);
      end == block + chunk - 1 < upTo && !Fits(end + 1, upTo, chunk)
  {
    if upTo - block < chunk {
      QuotientIsUnique(upTo - block, chunk, 0, upTo - block);
    } else {
      LastStartSteps(block, upTo, chunk);
    }
  }

  lemma RemainderOfMultiple(r: nat, j: nat, m: nat)
    requires m >= 1
    ensures (r + j * m) % m == r % m
  {
    var q := r / m;
    assert r + j * m == (q + j) * m + r % m by { assert r == q * m + r % m; assert (q + j) * m == q * m + j * m; }
    QuotientIsUnique(r + j * m, m, q + j, r % m);
  }

  /** After an inverted range the loop stands again where the last end does not fit, if chunks divide 2^64. */
  lemma WrapsAround(block: Uint64, upTo: Uint64, chunk: Uint64, chunks: nat)
    requires chunk >= 1 && chunks * chunk == TWO_TO_THE_64
    requires block <= upTo && !Fits(block, upTo, chunk) && ChunkEnd(block, upTo, chunk) < block
    ensures var end := ChunkEnd(block, upTo, chunk); end + 1 <= upTo && !Fits(end + 1, upTo, chunk)
  {
    var next := ChunkEnd(block, upTo, chunk) + 1;
    assert next == block + chunk - TWO_TO_THE_64;
    assert upTo - next == (upTo - block) + (chunks - 1) * chunk by { assert (chunks - 1) * chunk == chunks * chunk - chunk; }
    RemainderOfMultiple(upTo - block, chunks - 1, chunk);
  }

  /** So with a chunk that divides 2^64 the loop never ends. */
  lemma {:induction false} WrappingNeverEnds(block: Uint64, upTo: Uint64, chunk: Uint64, chunks: nat, n: nat)
    requires chunk >= 1 && chunks * chunk == TWO_TO_THE_64
    requires block <= upTo && !Fits(block, upTo, chunk)
    ensures !Ends(block, upTo, chunk, n)
    decreases n
  {
    if n > 0 {
      var end := ChunkEnd(block, upTo, chunk);
      if end < block { WrapsAround(block, upTo, chunk, chunks); } else { WrappingStep(block, upTo, chunk); }
      WrappingNeverEnds(end + 1, upTo, chunk, chunks, n - 1);
    }
  }

  lemma {:induction false} FittingPartitions(block: Uint64, upTo: Uint64, chunk: Uint64, n: nat)
    requires chunk >= 1 && block <= upTo && Fits(block, upTo, chunk) && upTo - block < n
    ensures Partitions(Requests(block, upTo, chunk, n), block, upTo)
    decreases upTo as int - block as int
  {
    StartFits(block, upTo, chunk);
    var rs, end := Requests(block, upTo, chunk, n), ChunkEnd(block, upTo, chunk);
    RequestsHead(block, upTo, chunk, n);
    if end < upTo {
      LastStartSteps(block, upTo, chunk);
      FittingPartitions(end + 1, upTo, chunk, n - 1);
    }
  }

  predicate PartitionsWithin(from: Uint64, upTo: Uint64, chunk: Uint64, n: nat)
    requires chunk >= 1
  {
    Partitions(Requests(from, upTo, chunk, n), from, upTo)
  }

  /** The requests partition the interval exactly when the last end fits in 64 bits. */
  lemma PartitionsExactlyWhenFits(from: Uint64, upTo: Uint64, chunk: Uint64)
    requires chunk >= 1 && from <= upTo
    ensures (exists n: nat :: PartitionsWithin(from, upTo, chunk, n)) <==> Fits(from, upTo, chunk)
  {
    if Fits(from, upTo, chunk) {
      FittingPartitions(from, upTo, chunk, upTo - from + 1);
      assert PartitionsWithin(from, upTo, chunk, upTo - from + 1);
    } else {
      forall n: nat ensures !PartitionsWithin(from, upTo, chunk, n) {
        WrappingNeverPartitions(from, upTo, chunk, n);
      }
    }
  }

  /** A short interval near the top of the 64-bit range: the first request is inverted and the loop never ends. */
  lemma WrappingExample(n: nat)
    ensures !Fits(MAX - 2, MAX - 1, 4)
    ensures Requests(MAX - 2, MAX - 1, 4, 1) == [Range(MAX - 2, 0)]
    ensures !Ends(MAX - 2, MAX - 1, 4, n)
  {
    QuotientIsUnique(1, 4, 0, 1);
    WrappingNeverEnds(MAX - 2, MAX - 1, 4, 0x4000_0000_0000_0000, n);
  }

  // ---- Hexadecimal quantities ----

  function HexDigit(d: nat): char
    requires d < 16
  {
    if d < 10 then '0' + d as char else 'a' + (d - 10) as char
  }

  function HexDigits(n: nat): (s: string)
    ensures |s| >= 1
  {
    if n < 16 then [HexDigit(n)] else HexDigits(n / 16) + [HexDigit(n % 16)]
  }

  function HexQuantity(n: Uint64): string { "0x" + HexDigits(n) }

  /** A character that is no hexadecimal digit only shifts. */
  function DigitValue(c: char): (d: nat)
    ensures d < 16
  {
    if '0' <= c <= '9' then (c - '0') as nat
    else if 'a' <= c <= 'f' then 10 + (c - 'a') as nat
    else if 'A' <= c <= 'F' then 10 + (c - 'A') as nat
    else 0
  }

  function ShiftIn(acc: Uint64, c: char): Uint64 { (acc * 16) % TWO_TO_THE_64 + DigitValue(c) }

  function HexValue(s: string): Uint64 {
    if s == "" then 0 else ShiftIn(HexValue(s[..|s| - 1]), s[|s| - 1])
  }

  method ParseHexU64(value: string) returns (out: Uint64)
    ensures out == HexValue(if |value| > 2 && value[0] == '0' && (value[1] == 'x' || value[1] == 'X') then value[2..] else value)
  {
    var offset := 0;
    if |value| > 2 && value[0] == '0' && (value[1] == 'x' || value[1] == 'X') {
      offset := 2;
    }
    ghost var digits := value[offset..];
    ghost var start := offset;
    out := 0;
    while offset < |value|
      invariant start <= offset <= |value|
      invariant out == HexValue(digits[..offset - start])
    {
      var c := value[offset];
      var next := digits[..offset + 1 - start];
      assert next[..|next| - 1] == digits[..offset - start] && next[|next| - 1] == c;
      out := ShiftIn(out, c);
      offset := offset + 1;
    }
    assert digits[..offset - start] == digits;
  }

  /** One more character shifts by four bits, modulo 2^64, and sets them if it is a digit in either case. */
  lemma HexValueOfOneMore(s: string, c: char)
    ensures HexValue("") == 0
    ensures forall d | 0 <= d < 16 && (c == "0123456789abcdef"[d] || c == "0123456789ABCDEF"[d]) ::
              HexValue(s + [c]) == (16 * HexValue(s) + d) % 0x1_0000_0000_0000_0000
    ensures c !in "0123456789abcdef" && c !in "0123456789ABCDEF" ==>
              HexValue(s + [c]) == 16 * HexValue(s) % 0x1_0000_0000_0000_0000
  {
    DigitValueIs(c);
    assert (s + [c])[..|s|] == s;
    ShiftWraps(HexValue(s), DigitValue(c));
  }

  lemma DigitValueIs(c: char)
    ensures forall d | 0 <= d < 16 && (c == "0123456789abcdef"[d] || c == "0123456789ABCDEF"[d]) :: DigitValue(c) == d
    ensures c !in "0123456789abcdef" && c !in "0123456789ABCDEF" ==> DigitValue(c) == 0
  {
    if DigitValue(c) != 0 {
      assert c == "0123456789abcdef"[DigitValue(c)] || c == "0123456789ABCDEF"[DigitValue(c)];
    }
  }

  lemma ShiftWraps(acc: Uint64, d: nat)
    requires d < 16
    ensures (acc * 16) % TWO_TO_THE_64 + d == (16 * acc + d) % TWO_TO_THE_64
  {
    var q, r := acc / 0x1000_0000_0000_0000, acc % 0x1000_0000_0000_0000;
    assert acc * 16 == q * TWO_TO_THE_64 + 16 * r;
    QuotientIsUnique(acc * 16, TWO_TO_THE_64, q, 16 * r);
    QuotientIsUnique(16 * acc + d, TWO_TO_THE_64, q, 16 * r + d);
  }

  /** Quantities are written with lower-case digits and no leading zero. */
  lemma {:induction false} HexIsCanonical(n: nat)
    ensures forall i | 0 <= i < |HexDigits(n)| :: HexDigits(n)[i] in "0123456789abcdef"
    ensures HexDigits(n)[0] == '0' ==> HexDigits(n) == "0" && n == 0
  {
    var last := HexDigit(n % 16);
    assert last == "0123456789abcdef"[n % 16];
    if n >= 16 {
      HexIsCanonical(n / 16);
      var s, front := HexDigits(n), HexDigits(n / 16);
      assert forall i | 0 <= i < |s| :: s[i] == if i < |front| then front[i] else last;
    }
  }

  lemma DigitReadsBack(acc: Uint64, d: nat)
    requires d < 16 && acc * 16 + d < TWO_TO_THE_64
    ensures ShiftIn(acc, HexDigit(d)) == acc * 16 + d
  {
  }

  /** Every 64-bit block number survives the trip through its hexadecimal quantity. */
  lemma {:induction false} HexRoundTrip(n: Uint64)
    ensures HexValue(HexDigits(n)) == n
    ensures |HexQuantity(n)| > 2 && HexQuantity(n)[..2] == "0x" && HexQuantity(n)[2..] == HexDigits(n)
    decreases n
  {
    var s := HexDigits(n);
    DigitReadsBack(n / 16, n % 16);
    assert s[|s| - 1] == HexDigit(n % 16);
    if n >= 16 {
      HexRoundTrip(n / 16);
      assert s[..|s| - 1] == HexDigits(n / 16);
    } else {
      assert s[..0] == "";
    }
  }
}
