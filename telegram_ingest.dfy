/**
 * Incremental ingestion of a channel's messages: batches are upserted into the database and
 * the channel's stored id interval is widened after each successful upsert; the fetch loop
 * buffers messages, flushes the buffer whenever the client has to go to the network, and
 * stops once a committed batch reaches the stop point derived from the stored interval.
 *
 * The database and the Telegram client are not modelled; their answers are inputs: the
 * outcome of each upsert and watermark write, and the sequence of items the message
 * iterator yields.
 */
module TelegramIngest {
  import opened Wrappers
  import opened Strings
  import opened TelegramTypes

  /** The stored `(min_message_id, max_message_id)` of a channel. */
  datatype Span = Span(low: Int32, high: Int32)

  // ---------------------------------------------------------------- batch range

  /** `fold(i32::MAX, |x, y| x.min(y.0))` */
  function BatchMin(ids: seq<Int32>): (r: Int32)
    ensures ids == [] ==> r == I32_MAX
    ensures ids != [] ==> r in ids
    ensures forall i | 0 <= i < |ids| :: r <= ids[i]
  {
    if ids == [] then I32_MAX
    else
      var m := BatchMin(ids[..|ids| - 1]);
      if ids[|ids| - 1] < m then ids[|ids| - 1] else m
  }

  /** `fold(i32::MIN, |x, y| x.max(y.0))` */
  function BatchMax(ids: seq<Int32>): (r: Int32)
    ensures ids == [] ==> r == I32_MIN
    ensures ids != [] ==> r in ids
    ensures forall i | 0 <= i < |ids| :: ids[i] <= r
  {
    if ids == [] then I32_MIN
    else
      var m := BatchMax(ids[..|ids| - 1]);
      if ids[|ids| - 1] > m then ids[|ids| - 1] else m
  }

  function Min(a: Int32, b: Int32): Int32 { if a <= b then a else b }
  function Max(a: Int32, b: Int32): Int32 { if a >= b then a else b }

  /** The interval after a successful upsert of a batch whose ids range over [lo, hi]. */
  function Widen(interval: Option<Span>, lo: Int32, hi: Int32): (r: Option<Span>)
    ensures r.Some?
    ensures interval.None? ==> r == Some(Span(lo, hi))
    ensures interval.Some? ==> r.value.low <= interval.value.low && r.value.high >= interval.value.high
    ensures r.value.low <= lo && r.value.high >= hi
  {
    match interval
    case Some(Span(l, h)) => Some(Span(Min(l, lo), Max(h, hi)))
    case None => Some(Span(lo, hi))
  }

  /** Widening is the least interval covering both: the bounds are the old or the batch's own. */
  lemma WidenIsTight(interval: Option<Span>, lo: Int32, hi: Int32)
    requires interval.Some?
    ensures Widen(interval, lo, hi).value.low in {interval.value.low, lo}
    ensures Widen(interval, lo, hi).value.high in {interval.value.high, hi}
  {
  }

  /** Upserting the same batch a second time leaves the interval as it is. */
  lemma WidenIdempotent(interval: Option<Span>, lo: Int32, hi: Int32)
    ensures Widen(Widen(interval, lo, hi), lo, hi) == Widen(interval, lo, hi)
  {
  }

  // ---------------------------------------------------------------- insert_to_db

  function Ids(batch: seq<(Int32, Message)>): (r: seq<Int32>)
    ensures |r| == |batch|
    ensures forall i | 0 <= i < |batch| :: r[i] == batch[i].0
  {
    seq(|batch|, i requires 0 <= i < |batch| => batch[i].0)
  }

  /**
   * `insert_to_db`. `upsertOk` and `watermarkOk` are the database's answers to the upsert and
   * to the update of the channel row. `dbCalls` counts the statements sent; `watermark` is the
   * interval written into the channel row, when one is written.
   */
  method InsertToDb(batch: seq<(Int32, Message)>, interval: Option<Span>, upsertOk: bool, watermarkOk: bool)
    returns (batchMax: Option<Int32>, newInterval: Option<Span>, dbCalls: nat, watermark: Option<Span>)
    ensures batch == [] ==> batchMax.None? && newInterval == interval && dbCalls == 0 && watermark.None?
    ensures batch != [] && !upsertOk ==> batchMax.None? && newInterval == interval && dbCalls == 1 && watermark.None?
    ensures batch != [] && upsertOk ==>
              && batchMax == Some(BatchMax(Ids(batch)))
              && newInterval == Widen(interval, BatchMin(Ids(batch)), BatchMax(Ids(batch)))
              && dbCalls == 2
              && watermark == newInterval
  {
    if batch == [] {
      return None, interval, 0, None;
    }
    var ids := Ids(batch);
    var lo := BatchMin(ids);
    var hi := BatchMax(ids);
    if !upsertOk {
      return None, interval, 1, None;
    }
    newInterval := Widen(interval, lo, hi);
    // a failed watermark write is only logged: the result does not depend on watermarkOk
    watermark := newInterval;
    dbCalls := 2;
    batchMax := Some(hi);
  }

  // ---------------------------------------------------------------- stop point

  /** A stored range of (0, 0), or one that could not be read, counts as no range. */
  function InitialInterval(stored: Option<(Int32, Int32)>): (r: Option<Span>)
    ensures r.Some? <==> stored.Some? && stored.value != (0, 0)
    ensures r.Some? ==> r.value == Span(stored.value.0, stored.value.1)
  {
    if stored.Some? && stored.value != (0, 0) then Some(Span(stored.value.0, stored.value.1)) else None
  }

  /** `interval.map_or(0, |x| x.1)` */
  function InitialStopPoint(interval: Option<Span>): (r: Int32)
    ensures interval.Some? ==> r == interval.value.high
    ensures interval.None? ==> r == 0
  {
    if interval.Some? then interval.value.high else 0
  }

  /** `r as u32`: the two's-complement bits of an i32 read as unsigned. */
  function AsU32(x: Int32): (r: int)
    ensures 0 <= r <= U32_MAX
    ensures (r - x) % 0x1_0000_0000 == 0
  {
    if x < 0 then x + 0x1_0000_0000 else x
  }

  /** Reduction of an integer to i32 with two's-complement wrap-around. */
  function WrapI32(x: int): (r: Int32)
    ensures (r - x) % 0x1_0000_0000 == 0
    ensures I32_MIN <= x <= I32_MAX ==> r == x
  {
    (x - I32_MIN) % 0x1_0000_0000 + I32_MIN
  }

  /** `r.wrapping_sub_unsigned(limit)` */
  function WrappingSubUnsigned(r: Int32, limit: nat): Int32 {
    WrapI32(r - limit)
  }

  /** The stop point after a flush: raised to `high - limit` when the interval's high, as u32, exceeds limit. */
  function RaiseStop(stop: Int32, interval: Option<Span>, limit: nat): (r: Int32)
    ensures r >= stop
    ensures r == stop
            || (interval.Some? && AsU32(interval.value.high) > limit
                && r == WrappingSubUnsigned(interval.value.high, limit))
  {
    if interval.Some? && AsU32(interval.value.high) > limit then
      Max(stop, WrappingSubUnsigned(interval.value.high, limit))
    else stop
  }

  /** For a non-negative high above the limit the subtraction never wraps: the stop point trails high by limit. */
  lemma RaiseStopNoWrap(stop: Int32, interval: Option<Span>, limit: nat)
    requires interval.Some? && 0 <= interval.value.high && interval.value.high > limit
    ensures RaiseStop(stop, interval, limit) == Max(stop, interval.value.high - limit)
  {
    assert I32_MIN <= interval.value.high - limit <= I32_MAX;
  }

  /** A non-negative high at or below the limit leaves the stop point where it was. */
  lemma RaiseStopBelowLimit(stop: Int32, interval: Option<Span>, limit: nat)
    requires interval.Some? && 0 <= interval.value.high <= limit
    ensures RaiseStop(stop, interval, limit) == stop
  {
  }

  // ---------------------------------------------------------------- fetch_content

  /** What one call into the message iterator produced. */
  datatype Outcome =
    | Received(message: TlMessage)  // Ok(Some(message))
    | Exhausted                     // Ok(None): no older messages
    | ChannelError                  // an RPC error with code 400
    | TransientError                // any other error: logged, then retried after a second

  /**
   * One turn of the inner loop: whether `next_raw` had nothing buffered so that the client
   * had to go to the network, what the iterator produced, and the database's answers to any
   * batch written during this turn.
   */
  datatype Step = Step(fromNetwork: bool, outcome: Outcome, upsertOk: bool, watermarkOk: bool)

  /** A non-empty batch handed to the database, and whether the upsert succeeded. */
  datatype Attempt = Attempt(ids: seq<Int32>, ok: bool)

  datatype StopReason = ReachedStopPoint | ChannelFailed | EndOfHistory | TraceEnded

  /** The ids of the messages received in the given turns, in arrival order. */
  function ReceivedIds(steps: seq<Step>): (r: seq<Int32>)
    ensures |r| <= |steps|
  {
    if steps == [] then []
    else
      var last := steps[|steps| - 1];
      ReceivedIds(steps[..|steps| - 1]) + (if last.outcome.Received? then [last.outcome.message.id] else [])
  }

  function Flatten(batches: seq<Attempt>): seq<Int32> {
    if batches == [] then [] else Flatten(batches[..|batches| - 1]) + batches[|batches| - 1].ids
  }

  function Apply(interval: Option<Span>, a: Attempt): Option<Span> {
    if a.ok && a.ids != [] then Widen(interval, BatchMin(a.ids), BatchMax(a.ids)) else interval
  }

  /** The interval after the given attempts, in order, starting from `start`. */
  function WidenAll(start: Option<Span>, attempts: seq<Attempt>): Option<Span> {
    if attempts == [] then start else Apply(WidenAll(start, attempts[..|attempts| - 1]), attempts[|attempts| - 1])
  }

  /**
   * The interval after any sequence of attempts covers the starting interval and every
   * successfully upserted batch, and a failed attempt contributes nothing.
   */
  lemma {:induction false} WidenAllCovers(start: Option<Span>, attempts: seq<Attempt>)
    ensures start.Some? ==> WidenAll(start, attempts).Some?
    ensures start.Some? ==> WidenAll(start, attempts).value.low <= start.value.low
                            && WidenAll(start, attempts).value.high >= start.value.high
    ensures forall j, x | 0 <= j < |attempts| && attempts[j].ok && x in attempts[j].ids ::
              WidenAll(start, attempts).Some?
              && WidenAll(start, attempts).value.low <= x <= WidenAll(start, attempts).value.high
    ensures (forall j | 0 <= j < |attempts| :: !attempts[j].ok) ==> WidenAll(start, attempts) == start
  {
    if attempts != [] {
      var prefix := attempts[..|attempts| - 1];
      var last := attempts[|attempts| - 1];
      WidenAllCovers(start, prefix);
      forall j, x | 0 <= j < |attempts| && attempts[j].ok && x in attempts[j].ids
        ensures WidenAll(start, attempts).Some?
        ensures WidenAll(start, attempts).value.low <= x <= WidenAll(start, attempts).value.high
      {
        if j < |prefix| {
          assert prefix[j] == attempts[j];
        } else {
          assert attempts[j] == last;
        }
      }
    }
  }

  /** A stop point never decreases over any number of flushes. */
  lemma {:induction false} StopPointMonotone(stop: Int32, intervals: seq<Option<Span>>, limit: nat)
    ensures RaiseStopAll(stop, intervals, limit) >= stop
  {
    if intervals != [] {
      StopPointMonotone(stop, intervals[..|intervals| - 1], limit);
    }
  }

  function RaiseStopAll(stop: Int32, intervals: seq<Option<Span>>, limit: nat): Int32 {
    if intervals == [] then stop
    else RaiseStop(RaiseStopAll(stop, intervals[..|intervals| - 1], limit), intervals[|intervals| - 1], limit)
  }

  lemma ReceivedIdsNext(steps: seq<Step>, k: nat)
    requires k < |steps|
    ensures ReceivedIds(steps[..k + 1]) == ReceivedIds(steps[..k])
              + (if steps[k].outcome.Received? then [steps[k].outcome.message.id] else [])
  {
    assert steps[..k + 1][..k] == steps[..k];
  }

  lemma AttemptsSnoc(start: Option<Span>, attempts: seq<Attempt>, a: Attempt)
    ensures Flatten(attempts + [a]) == Flatten(attempts) + a.ids
    ensures WidenAll(start, attempts + [a]) == Apply(WidenAll(start, attempts), a)
  {
    assert (attempts + [a])[..|attempts|] == attempts;
  }

  /**
   * The flush at the top of a turn that needs the network: the buffered batch goes to the
   * database, the stop point is raised from the new interval, and `halt` says whether the
   * batch was committed at or below the stop point.
   */
  method Flush(buffer: seq<(Int32, Message)>, interval: Option<Span>, stopPoint: Int32, limit: nat,
               step: Step, attempts: seq<Attempt>, ghost start: Option<Span>)
    returns (newInterval: Option<Span>, newStop: Int32, newAttempts: seq<Attempt>, halt: bool)
    requires buffer != []
    requires interval == WidenAll(start, attempts)
    ensures newAttempts == attempts + [Attempt(Ids(buffer), step.upsertOk)]
    ensures newInterval == WidenAll(start, newAttempts)
    ensures Flatten(newAttempts) == Flatten(attempts) + Ids(buffer)
    ensures newStop == RaiseStop(stopPoint, newInterval, limit)
    ensures halt <==> step.upsertOk && BatchMax(Ids(buffer)) <= newStop
  {
    var batchMax, iv, _, _ := InsertToDb(buffer, interval, step.upsertOk, step.watermarkOk);
    var a := Attempt(Ids(buffer), step.upsertOk);
    AttemptsSnoc(start, attempts, a);
    newAttempts := attempts + [a];
    newInterval := iv;
    newStop := RaiseStop(stopPoint, newInterval, limit);
    halt := batchMax.Some? && batchMax.value <= newStop;
  }

  /** The `insert_to_db` call that ends the loop, recorded as an attempt when the buffer is not empty. */
  method FinalFlush(buffer: seq<(Int32, Message)>, interval: Option<Span>, step: Step,
                    attempts: seq<Attempt>, ghost start: Option<Span>)
    returns (newInterval: Option<Span>, newAttempts: seq<Attempt>)
    requires interval == WidenAll(start, attempts)
    ensures newInterval == WidenAll(start, newAttempts)
    ensures Flatten(newAttempts) == Flatten(attempts) + Ids(buffer)
    ensures buffer == [] ==> newAttempts == attempts
    ensures buffer != [] ==> newAttempts == attempts + [Attempt(Ids(buffer), step.upsertOk)]
  {
    var _, iv, _, _ := InsertToDb(buffer, interval, step.upsertOk, step.watermarkOk);
    newInterval := iv;
    if buffer == [] {
      newAttempts := attempts;
    } else {
      var a := Attempt(Ids(buffer), step.upsertOk);
      AttemptsSnoc(start, attempts, a);
      newAttempts := attempts + [a];
    }
  }

  /** Appending a converted message to the buffer appends its id. */
  function Push(buffer: seq<(Int32, Message)>, m: TlMessage): (r: seq<(Int32, Message)>)
    ensures Ids(r) == Ids(buffer) + [m.id]
    ensures r[..|buffer|] == buffer && r[|buffer|].1 == ConvertMessage(m)
  {
    buffer + [(m.id, ConvertMessage(m))]
  }

  /** The iterator has to go to the network while messages are buffered: the buffer is flushed first. */
  predicate NeedsFlush(buffer: seq<(Int32, Message)>, step: Step) {
    step.fromNetwork && buffer != []
  }

  /** `batch_max.is_some_and(|x| x <= stop_point)` for a flushed batch: the upsert succeeded at or below the stop point. */
  predicate Halts(a: Attempt, stop: Int32) {
    a.ok && BatchMax(a.ids) <= stop
  }

  /**
   * One turn of the loop of `fetch_content`: flush first if the iterator has to go to the
   * network, then act on what it produced. `stopped` is the reason the loop ends, if it does.
   * `received` stands for the ids received so far.
   */
  method Turn(buffer: seq<(Int32, Message)>, interval: Option<Span>, stopPoint: Int32,
              attempts: seq<Attempt>, limit: nat, step: Step,
              ghost start: Option<Span>, ghost received: seq<Int32>)
    returns (buffer': seq<(Int32, Message)>, interval': Option<Span>, stopPoint': Int32,
             attempts': seq<Attempt>, stopped: Option<StopReason>)
    requires interval == WidenAll(start, attempts)
    requires forall j | 0 <= j < |attempts| :: attempts[j].ids != []
    requires Flatten(attempts) + Ids(buffer) == received
    ensures interval' == WidenAll(start, attempts')
    ensures stopPoint' >= stopPoint
    ensures forall j | 0 <= j < |attempts'| :: attempts'[j].ids != []
    ensures stopped != Some(TraceEnded)
    ensures NeedsFlush(buffer, step) ==>
              && attempts' == attempts + [Attempt(Ids(buffer), step.upsertOk)]
              && stopPoint' == RaiseStop(stopPoint, WidenAll(start, attempts'), limit)
    ensures !NeedsFlush(buffer, step) ==> stopPoint' == stopPoint
    ensures !NeedsFlush(buffer, step) && stopped.None? ==> attempts' == attempts
    ensures !NeedsFlush(buffer, step) && stopped.Some? ==>
              attempts' == attempts + (if buffer == [] then [] else [Attempt(Ids(buffer), step.upsertOk)])
    ensures stopped == Some(ReachedStopPoint) <==>
              NeedsFlush(buffer, step) && Halts(Attempt(Ids(buffer), step.upsertOk), stopPoint')
    ensures stopped != Some(ReachedStopPoint) ==>
              (stopped.None? <==> step.outcome.Received? || step.outcome.TransientError?)
    ensures stopped.None? ==>
              && (step.outcome.Received? || step.outcome.TransientError?)
              && Flatten(attempts') + Ids(buffer')
                 == received + (if step.outcome.Received? then [step.outcome.message.id] else [])
    ensures stopped == Some(ReachedStopPoint) ==> Flatten(attempts') == received
    ensures stopped == Some(ChannelFailed) ==> step.outcome.ChannelError? && Flatten(attempts') == received
    ensures stopped == Some(EndOfHistory) ==> step.outcome.Exhausted? && Flatten(attempts') == received
  {
    var halted;
    buffer', interval', stopPoint', attempts', halted := FlushFirst(buffer, interval, stopPoint, attempts, limit, step, start, received);
    if halted {
      // the loop breaks before asking the iterator: this turn yields no item
      stopped := Some(ReachedStopPoint);
      return;
    }
    ghost var flushed := attempts';
    buffer', interval', attempts', stopped := Act(buffer', interval', attempts', step, start, received);
    assert NeedsFlush(buffer, step) ==> attempts' == flushed;
  }

  /** The first half of a turn: the flush before a network fetch, and whether it stops the loop. */
  method FlushFirst(buffer: seq<(Int32, Message)>, interval: Option<Span>, stopPoint: Int32,
                    attempts: seq<Attempt>, limit: nat, step: Step,
                    ghost start: Option<Span>, ghost received: seq<Int32>)
    returns (buffer': seq<(Int32, Message)>, interval': Option<Span>, stopPoint': Int32,
             attempts': seq<Attempt>, halted: bool)
    requires interval == WidenAll(start, attempts)
    requires forall j | 0 <= j < |attempts| :: attempts[j].ids != []
    requires Flatten(attempts) + Ids(buffer) == received
    ensures interval' == WidenAll(start, attempts')
    ensures stopPoint' >= stopPoint
    ensures forall j | 0 <= j < |attempts'| :: attempts'[j].ids != []
    ensures NeedsFlush(buffer, step) ==>
              && attempts' == attempts + [Attempt(Ids(buffer), step.upsertOk)]
              && stopPoint' == RaiseStop(stopPoint, interval', limit)
    ensures !NeedsFlush(buffer, step) ==>
              buffer' == buffer && interval' == interval && stopPoint' == stopPoint && attempts' == attempts
    ensures halted <==> NeedsFlush(buffer, step) && Halts(Attempt(Ids(buffer), step.upsertOk), stopPoint')
    ensures NeedsFlush(buffer, step) && !halted ==> buffer' == []
    ensures !halted ==> Flatten(attempts') + Ids(buffer') == received
    ensures halted ==> Flatten(attempts') == received
  {
    buffer', interval', stopPoint', attempts', halted := buffer, interval, stopPoint, attempts, false;
    if step.fromNetwork && buffer != [] {
      interval', stopPoint', attempts', halted := Flush(buffer, interval, stopPoint, limit, step, attempts, start);
      if !halted {
        buffer' := [];
      }
    }
  }

  /** The second half of a turn: what the iterator produced, and the final flush when it ends the loop. */
  method Act(buffer: seq<(Int32, Message)>, interval: Option<Span>, attempts: seq<Attempt>, step: Step,
             ghost start: Option<Span>, ghost received: seq<Int32>)
    returns (buffer': seq<(Int32, Message)>, interval': Option<Span>, attempts': seq<Attempt>,
             stopped: Option<StopReason>)
    requires interval == WidenAll(start, attempts)
    requires forall j | 0 <= j < |attempts| :: attempts[j].ids != []
    requires Flatten(attempts) + Ids(buffer) == received
    ensures interval' == WidenAll(start, attempts')
    ensures forall j | 0 <= j < |attempts'| :: attempts'[j].ids != []
    ensures stopped != Some(TraceEnded) && stopped != Some(ReachedStopPoint)
    ensures stopped.None? <==> step.outcome.Received? || step.outcome.TransientError?
    ensures stopped.None? ==> attempts' == attempts
    ensures stopped.Some? ==>
              attempts' == attempts + (if buffer == [] then [] else [Attempt(Ids(buffer), step.upsertOk)])
    ensures stopped.None? ==>
              && (step.outcome.Received? || step.outcome.TransientError?)
              && Flatten(attempts') + Ids(buffer')
                 == received + (if step.outcome.Received? then [step.outcome.message.id] else [])
    ensures stopped == Some(ChannelFailed) ==> step.outcome.ChannelError? && Flatten(attempts') == received
    ensures stopped == Some(EndOfHistory) ==> step.outcome.Exhausted? && Flatten(attempts') == received
  {
    buffer', interval', attempts', stopped := buffer, interval, attempts, None;
    match step.outcome {
      case Received(m) =>
        buffer' := Push(buffer, m);
      case TransientError =>
      case ChannelError =>
        interval', attempts' := FlushAtEnd(buffer, interval, attempts, step, start, received);
        stopped := Some(ChannelFailed);
      case Exhausted =>
        interval', attempts' := FlushAtEnd(buffer, interval, attempts, step, start, received);
        stopped := Some(EndOfHistory);
    }
  }

  /** The flush that ends the loop: every id received is now in a batch handed to the database. */
  method FlushAtEnd(buffer: seq<(Int32, Message)>, interval: Option<Span>, attempts: seq<Attempt>, step: Step,
                    ghost start: Option<Span>, ghost received: seq<Int32>)
    returns (interval': Option<Span>, attempts': seq<Attempt>)
    requires interval == WidenAll(start, attempts)
    requires forall j | 0 <= j < |attempts| :: attempts[j].ids != []
    requires Flatten(attempts) + Ids(buffer) == received
    ensures interval' == WidenAll(start, attempts')
    ensures forall j | 0 <= j < |attempts'| :: attempts'[j].ids != []
    ensures Flatten(attempts') == received
    ensures attempts' == attempts + (if buffer == [] then [] else [Attempt(Ids(buffer), step.upsertOk)])
  {
    interval', attempts' := FinalFlush(buffer, interval, step, attempts, start);
    if buffer != [] {
      assert attempts'[|attempts'| - 1].ids == Ids(buffer) != [];
    }
  }

  /** The stop point in force after the given stop points, starting from init. */
  function LastStop(init: Int32, stops: seq<Int32>): Int32 {
    if stops == [] then init else stops[|stops| - 1]
  }

  /**
   * The stop points after each of the given flushes, in order: each flush raises the previous
   * stop point from the interval after it (`stop_point = stop_point.max(...)`).
   */
  function StopsAfter(init: Int32, flushes: seq<Attempt>, start: Option<Span>, limit: nat): (r: seq<Int32>)
    ensures |r| == |flushes|
  {
    if flushes == [] then []
    else
      var before := StopsAfter(init, flushes[..|flushes| - 1], start, limit);
      before + [RaiseStop(LastStop(init, before), WidenAll(start, flushes), limit)]
  }

  /** No checked attempt before the last checked one stopped the loop. */
  predicate NoneHaltsBefore(attempts: seq<Attempt>, checks: seq<Int32>) {
    && |checks| <= |attempts|
    && forall j | 0 <= j < |checks| - 1 :: !Halts(attempts[j], checks[j])
  }

  /** The last checked attempt met the stop condition. */
  predicate LastHalts(attempts: seq<Attempt>, checks: seq<Int32>)
    requires |checks| <= |attempts|
  {
    checks != [] && Halts(attempts[|checks| - 1], checks[|checks| - 1])
  }

  /**
   * The record of checked stop points: the first |checks| attempts are the in-loop flushes (at
   * most one unchecked flush follows them), `checks` are the stop points they were checked
   * against, the current stop point is the last of them, and no checked flush before the last
   * met the stop condition.
   */
  predicate Checked(init: Int32, checks: seq<Int32>, attempts: seq<Attempt>, start: Option<Span>, limit: nat,
                    stopPoint: Int32) {
    && |checks| <= |attempts| <= |checks| + 1
    && checks == StopsAfter(init, attempts[..|checks|], start, limit)
    && stopPoint == LastStop(init, checks)
    && NoneHaltsBefore(attempts, checks)
  }

  /** The state of the loop between turns: every attempt so far was checked, and none met the stop condition. */
  predicate Unstopped(init: Int32, checks: seq<Int32>, attempts: seq<Attempt>, start: Option<Span>, limit: nat,
                      stopPoint: Int32) {
    && |checks| == |attempts|
    && Checked(init, checks, attempts, start, limit, stopPoint)
    && !LastHalts(attempts, checks)
  }

  lemma StopsSnoc(init: Int32, before: seq<Attempt>, a: Attempt, start: Option<Span>, limit: nat)
    ensures StopsAfter(init, before + [a], start, limit)
            == StopsAfter(init, before, start, limit)
               + [RaiseStop(LastStop(init, StopsAfter(init, before, start, limit)), WidenAll(start, before + [a]), limit)]
  {
    assert (before + [a])[..|before|] == before;
  }

  /**
   * The state of `fetch_content` between turns, on ids: the buffered ids, the stop point, the
   * batches handed to the database, the stop points the in-loop flushes were checked against,
   * and why the loop ended, once it has.
   */
  datatype Progress = Progress(pending: seq<Int32>, stop: Int32, attempts: seq<Attempt>, checks: seq<Int32>,
                               ended: Option<StopReason>)

  /**
   * The outputs of `fetch_content` are those of progress `p`: its stop point, batches and
   * checks, and its reason for ending, or `TraceEnded` when it had not ended.
   */
  predicate Agrees(p: Progress, stopPoint: Int32, attempts: seq<Attempt>, checks: seq<Int32>, reason: StopReason) {
    && attempts == p.attempts && stopPoint == p.stop && checks == p.checks
    && (reason == TraceEnded <==> p.ended.None?)
    && (p.ended.Some? ==> reason == p.ended.value)
  }

  /** The batch `insert_to_db` records for a buffer: none for an empty one. */
  function Batch(pending: seq<Int32>, ok: bool): seq<Attempt> {
    if pending == [] then [] else [Attempt(pending, ok)]
  }

  /** The second half of a turn: what the iterator produced. */
  function Produce(p: Progress, step: Step): Progress {
    match step.outcome
    case Received(m) => p.(pending := p.pending + [m.id])
    case TransientError => p
    case ChannelError => p.(attempts := p.attempts + Batch(p.pending, step.upsertOk), ended := Some(ChannelFailed))
    case Exhausted => p.(attempts := p.attempts + Batch(p.pending, step.upsertOk), ended := Some(EndOfHistory))
  }

  /**
   * One turn of the loop: a fetch from the network with messages buffered flushes them first,
   * raises the stop point from the widened interval and breaks out when the upsert succeeded
   * with its max at or below it; otherwise the buffer is cleared and the outcome is acted on.
   */
  function Advance(p: Progress, step: Step, start: Option<Span>, limit: nat): Progress {
    if step.fromNetwork && p.pending != [] then
      var a := Attempt(p.pending, step.upsertOk);
      var stop := RaiseStop(p.stop, WidenAll(start, p.attempts + [a]), limit);
      var flushed := p.(stop := stop, attempts := p.attempts + [a], checks := p.checks + [stop]);
      if Halts(a, stop) then flushed.(ended := Some(ReachedStopPoint))
      else Produce(flushed.(pending := []), step)
    else Produce(p, step)
  }

  /** The loop of `fetch_content` over the given turns, from an empty buffer; turns after it ended change nothing. */
  function Fetched(start: Option<Span>, init: Int32, limit: nat, steps: seq<Step>): Progress {
    if steps == [] then Progress([], init, [], [], None)
    else
      var p := Fetched(start, init, limit, steps[..|steps| - 1]);
      if p.ended.Some? then p else Advance(p, steps[|steps| - 1], start, limit)
  }

  /** While the loop runs, every id received is in a batch handed to the database or still buffered, in arrival order. */
  lemma {:induction false} FetchedAccounts(start: Option<Span>, init: Int32, limit: nat, steps: seq<Step>)
    ensures var p := Fetched(start, init, limit, steps);
            p.ended.None? ==> Flatten(p.attempts) + p.pending == ReceivedIds(steps)
  {
    if steps != [] {
      var prev := steps[..|steps| - 1];
      var last := steps[|steps| - 1];
      FetchedAccounts(start, init, limit, prev);
      var p := Fetched(start, init, limit, prev);
      if p.ended.None? {
        AdvanceAccounts(p, last, start, limit);
        ReceivedIdsNext(steps, |prev|);
        assert steps[..|prev|] == prev && steps[..|prev| + 1] == steps;
      }
    }
  }

  /** A turn that does not end the loop moves the buffered ids into a batch or keeps them, and buffers what it received. */
  lemma AdvanceAccounts(p: Progress, step: Step, start: Option<Span>, limit: nat)
    requires p.ended.None?
    ensures var q := Advance(p, step, start, limit);
            q.ended.None? ==>
              Flatten(q.attempts) + q.pending
              == Flatten(p.attempts) + p.pending + (if step.outcome.Received? then [step.outcome.message.id] else [])
  {
    var q := Advance(p, step, start, limit);
    if q.ended.None? {
      if step.fromNetwork && p.pending != [] {
        AttemptsSnoc(start, p.attempts, Attempt(p.pending, step.upsertOk));
        assert q.attempts == p.attempts + [Attempt(p.pending, step.upsertOk)];
        assert q.pending == if step.outcome.Received? then [step.outcome.message.id] else [];
      } else {
        assert q.attempts == p.attempts;
      }
    }
  }

  /** The facts one turn establishes determine it: they are exactly one step of `Advance`. */
  lemma TurnAdvances(pending: seq<Int32>, stopPoint: Int32, attempts: seq<Attempt>, checks: seq<Int32>, step: Step,
                     start: Option<Span>, limit: nat,
                     stopPoint': Int32, attempts': seq<Attempt>, checks': seq<Int32>, stopped: Option<StopReason>)
    requires var flush := step.fromNetwork && pending != [];
             && (flush ==> attempts' == attempts + [Attempt(pending, step.upsertOk)]
                           && stopPoint' == RaiseStop(stopPoint, WidenAll(start, attempts'), limit))
             && (!flush ==> stopPoint' == stopPoint)
             && (!flush && stopped.None? ==> attempts' == attempts)
             && (!flush && stopped.Some? ==> attempts' == attempts + Batch(pending, step.upsertOk))
             && (stopped == Some(ReachedStopPoint) <==> flush && Halts(Attempt(pending, step.upsertOk), stopPoint'))
             && (checks' == if flush then checks + [stopPoint'] else checks)
    requires stopped != Some(TraceEnded)
    requires stopped != Some(ReachedStopPoint) ==> (stopped.None? <==> step.outcome.Received? || step.outcome.TransientError?)
    requires stopped == Some(ChannelFailed) ==> step.outcome.ChannelError?
    requires stopped == Some(EndOfHistory) ==> step.outcome.Exhausted?
    ensures var q := Advance(Progress(pending, stopPoint, attempts, checks, None), step, start, limit);
            attempts' == q.attempts && stopPoint' == q.stop && checks' == q.checks && stopped == q.ended
  {
    if stopped != Some(ReachedStopPoint) {
      match step.outcome {
        case Received(_) =>
        case TransientError =>
        case ChannelError =>
          assert stopped.Some? && !stopped.value.EndOfHistory? && !stopped.value.ReachedStopPoint?;
        case Exhausted =>
          assert stopped.Some? && !stopped.value.ChannelFailed? && !stopped.value.ReachedStopPoint?;
      }
      if step.fromNetwork && pending != [] {
        assert attempts' + Batch([], step.upsertOk) == attempts';
      }
    }
  }

  /** One more step of the trace advances the progress, which still accounts for every id received. */
  lemma FetchedStep(start: Option<Span>, init: Int32, limit: nat, steps: seq<Step>, n: nat, p: Progress)
    requires n < |steps| && Fetched(start, init, limit, steps[..n]) == p && p.ended.None?
    ensures var q := Fetched(start, init, limit, steps[..n + 1]);
            && q == Advance(p, steps[n], start, limit)
            && (q.ended.None? ==> Flatten(q.attempts) + q.pending == ReceivedIds(steps[..n + 1]))
  {
    FetchedNext(start, init, limit, steps, n);
    FetchedAccounts(start, init, limit, steps[..n + 1]);
  }

  /** Two buffers that complete the same batches to the same ids are the same. */
  lemma SamePending(attempts: seq<Attempt>, buffer: seq<Int32>, pending: seq<Int32>, received: seq<Int32>)
    requires Flatten(attempts) + buffer == received && Flatten(attempts) + pending == received
    ensures buffer == pending
  {
    assert buffer == received[|Flatten(attempts)|..];
    assert pending == received[|Flatten(attempts)|..];
  }

  lemma FetchedNext(start: Option<Span>, init: Int32, limit: nat, steps: seq<Step>, n: nat)
    requires n < |steps|
    ensures var p := Fetched(start, init, limit, steps[..n]);
            Fetched(start, init, limit, steps[..n + 1]) == if p.ended.Some? then p else Advance(p, steps[n], start, limit)
  {
    assert steps[..n + 1][..n] == steps[..n];
  }

  /**
   * One turn of `fetch_content` together with the record of the stop points its in-loop
   * flushes were checked against.
   */
  method Round(buffer: seq<(Int32, Message)>, interval: Option<Span>, stopPoint: Int32,
               attempts: seq<Attempt>, limit: nat, step: Step,
               ghost start: Option<Span>, ghost received: seq<Int32>, ghost init: Int32, ghost checks: seq<Int32>)
    returns (buffer': seq<(Int32, Message)>, interval': Option<Span>, stopPoint': Int32,
             attempts': seq<Attempt>, stopped: Option<StopReason>, ghost checks': seq<Int32>)
    requires interval == WidenAll(start, attempts)
    requires forall j | 0 <= j < |attempts| :: attempts[j].ids != []
    requires Flatten(attempts) + Ids(buffer) == received
    requires Unstopped(init, checks, attempts, start, limit, stopPoint)
    ensures interval' == WidenAll(start, attempts')
    ensures stopPoint' >= stopPoint
    ensures forall j | 0 <= j < |attempts'| :: attempts'[j].ids != []
    ensures stopped != Some(TraceEnded)
    ensures Checked(init, checks', attempts', start, limit, stopPoint')
    ensures |attempts'| == |checks'| + 1 ==> stopped == Some(ChannelFailed) || stopped == Some(EndOfHistory)
    ensures stopped == Some(ReachedStopPoint) <==> LastHalts(attempts', checks')
    ensures stopped.None? ==>
              && Unstopped(init, checks', attempts', start, limit, stopPoint')
              && (step.outcome.Received? || step.outcome.TransientError?)
              && Flatten(attempts') + Ids(buffer')
                 == received + (if step.outcome.Received? then [step.outcome.message.id] else [])
    ensures stopped == Some(ReachedStopPoint) ==> step.fromNetwork && Flatten(attempts') == received
    ensures stopped == Some(ChannelFailed) ==> step.outcome.ChannelError? && Flatten(attempts') == received
    ensures stopped == Some(EndOfHistory) ==> step.outcome.Exhausted? && Flatten(attempts') == received
    ensures var q := Advance(Progress(Ids(buffer), stopPoint, attempts, checks, None), step, start, limit);
            attempts' == q.attempts && stopPoint' == q.stop && checks' == q.checks && stopped == q.ended
  {
    buffer', interval', stopPoint', attempts', stopped :=
      Turn(buffer, interval, stopPoint, attempts, limit, step, start, received);
    checks' := if NeedsFlush(buffer, step) then checks + [stopPoint'] else checks;
    RecordTurn(init, checks, attempts, attempts', stopPoint, stopPoint', NeedsFlush(buffer, step),
               Attempt(Ids(buffer), step.upsertOk), buffer == [], stopped, start, limit);
    assert Ids(buffer) == [] <==> buffer == [];
    TurnAdvances(Ids(buffer), stopPoint, attempts, checks, step, start, limit, stopPoint', attempts', checks', stopped);
  }

  /** How one turn extends the record of checked stop points. */
  lemma RecordTurn(init: Int32, checks: seq<Int32>, attempts: seq<Attempt>, attempts': seq<Attempt>,
                   stopPoint: Int32, stopPoint': Int32, flushed: bool, a: Attempt, empty: bool,
                   stopped: Option<StopReason>, start: Option<Span>, limit: nat)
    requires Unstopped(init, checks, attempts, start, limit, stopPoint)
    requires stopped != Some(TraceEnded)
    requires flushed ==> attempts' == attempts + [a] && stopPoint' == RaiseStop(stopPoint, WidenAll(start, attempts'), limit)
    requires !flushed ==> stopPoint' == stopPoint
    requires !flushed && stopped.None? ==> attempts' == attempts
    requires !flushed && stopped.Some? ==> attempts' == attempts + (if empty then [] else [a])
    requires stopped == Some(ReachedStopPoint) <==> flushed && Halts(a, stopPoint')
    ensures var checks' := if flushed then checks + [stopPoint'] else checks;
            && Checked(init, checks', attempts', start, limit, stopPoint')
            && (|attempts'| == |checks'| + 1 ==> stopped == Some(ChannelFailed) || stopped == Some(EndOfHistory))
            && (stopped == Some(ReachedStopPoint) <==> LastHalts(attempts', checks'))
            && (stopped.None? ==> Unstopped(init, checks', attempts', start, limit, stopPoint'))
  {
    if flushed {
      RecordFlush(init, checks, attempts, a, stopPoint, start, limit);
    } else {
      assert attempts'[..|checks|] == attempts[..|checks|];
      if stopped.Some? {
        assert stopped.value.ChannelFailed? || stopped.value.EndOfHistory?;
      }
    }
  }

  /** A flush inside the loop adds one checked stop point: the raised one. */
  lemma RecordFlush(init: Int32, checks: seq<Int32>, attempts: seq<Attempt>, a: Attempt,
                    stopPoint: Int32, start: Option<Span>, limit: nat)
    requires Unstopped(init, checks, attempts, start, limit, stopPoint)
    ensures var attempts', checks' := attempts + [a], checks + [RaiseStop(stopPoint, WidenAll(start, attempts + [a]), limit)];
            && Checked(init, checks', attempts', start, limit, checks'[|checks|])
            && |attempts'| == |checks'|
            && (LastHalts(attempts', checks') <==> Halts(a, checks'[|checks|]))
  {
    assert attempts[..|checks|] == attempts;
    StopsSnoc(init, attempts, a, start, limit);
    var attempts', checks' := attempts + [a], checks + [RaiseStop(stopPoint, WidenAll(start, attempts + [a]), limit)];
    assert attempts'[..|checks'|] == attempts';
    assert attempts'[|checks|] == a;
    assert forall j | 0 <= j < |checks| :: attempts'[j] == attempts[j] && checks'[j] == checks[j];
  }

  /**
   * The state of `fetch_content` after `taken` turns that did not end it: the interval covers
   * the batches, every id received is in a batch or buffered, every in-loop flush was checked
   * and none met the stop point, and the state is that of the fold over those turns.
   */
  predicate Between(start: Option<Span>, init: Int32, limit: nat, steps: seq<Step>, taken: nat,
                    buffer: seq<(Int32, Message)>, interval: Option<Span>, stopPoint: Int32,
                    attempts: seq<Attempt>, checks: seq<Int32>) {
    && taken <= |steps|
    && interval == WidenAll(start, attempts)
    && stopPoint >= init
    && (forall j | 0 <= j < |attempts| :: attempts[j].ids != [])
    && Flatten(attempts) + Ids(buffer) == ReceivedIds(steps[..taken])
    && (taken == 0 || steps[taken - 1].outcome.Received? || steps[taken - 1].outcome.TransientError?)
    && Unstopped(init, checks, attempts, start, limit, stopPoint)
    && Fetched(start, init, limit, steps[..taken]) == Progress(Ids(buffer), stopPoint, attempts, checks, None)
    && (taken > 0 ==> Fetched(start, init, limit, steps[..taken - 1]).ended.None?)
  }

  /**
   * What `fetch_content` returns after `taken` turns, for the reason it gives: the loop stopped
   * at the turn that ended it, or the trace ran out first.
   */
  predicate Finished(start: Option<Span>, init: Int32, limit: nat, steps: seq<Step>, taken: nat,
                     interval: Option<Span>, stopPoint: Int32, attempts: seq<Attempt>, checks: seq<Int32>,
                     reason: StopReason) {
    && taken <= |steps|
    && (reason == TraceEnded ==> taken == |steps| && (taken == 0 || steps[taken - 1].outcome.Received?
                                                      || steps[taken - 1].outcome.TransientError?))
    && interval == WidenAll(start, attempts)
    && stopPoint >= init
    && (forall j | 0 <= j < |attempts| :: attempts[j].ids != [])
    && Checked(init, checks, attempts, start, limit, stopPoint)
    && (|attempts| == |checks| + 1 ==> reason == ChannelFailed || reason == EndOfHistory)
    && (reason == ReachedStopPoint <==> LastHalts(attempts, checks))
    && (reason == ReachedStopPoint ==>
          taken >= 1 && steps[taken - 1].fromNetwork && Flatten(attempts) == ReceivedIds(steps[..taken - 1]))
    && (reason == ChannelFailed ==> taken >= 1 && steps[taken - 1].outcome.ChannelError?)
    && (reason == EndOfHistory ==> taken >= 1 && steps[taken - 1].outcome.Exhausted?)
    && (reason == ChannelFailed || reason == EndOfHistory ==> Flatten(attempts) == ReceivedIds(steps[..taken]))
    && (reason == TraceEnded ==> Flatten(attempts) <= ReceivedIds(steps[..taken]))
    && Agrees(Fetched(start, init, limit, steps[..taken]), stopPoint, attempts, checks, reason)
    && (taken > 0 ==> Fetched(start, init, limit, steps[..taken - 1]).ended.None?)
  }

  /** The trace running out between turns ends `fetch_content` with what it has. */
  lemma RanOut(start: Option<Span>, init: Int32, limit: nat, steps: seq<Step>,
               buffer: seq<(Int32, Message)>, interval: Option<Span>, stopPoint: Int32,
               attempts: seq<Attempt>, checks: seq<Int32>)
    requires Between(start, init, limit, steps, |steps|, buffer, interval, stopPoint, attempts, checks)
    ensures Finished(start, init, limit, steps, |steps|, interval, stopPoint, attempts, checks, TraceEnded)
  {
    assert Flatten(attempts) <= Flatten(attempts) + Ids(buffer);
  }

  /**
   * One turn of the `fetch_content` loop on the trace: the state after it is that of the fold
   * over one more step, and when the turn ends the loop, that is what the loop returns.
   */
  method Pass(buffer: seq<(Int32, Message)>, interval: Option<Span>, stopPoint: Int32, attempts: seq<Attempt>,
              limit: nat, steps: seq<Step>, taken: nat, ghost start: Option<Span>, ghost init: Int32,
              ghost checks: seq<Int32>)
    returns (buffer': seq<(Int32, Message)>, interval': Option<Span>, stopPoint': Int32,
             attempts': seq<Attempt>, stopped: Option<StopReason>, ghost checks': seq<Int32>)
    requires taken < |steps|
    requires Between(start, init, limit, steps, taken, buffer, interval, stopPoint, attempts, checks)
    ensures stopped.None? ==>
              Between(start, init, limit, steps, taken + 1, buffer', interval', stopPoint', attempts', checks')
    ensures stopped.Some? ==>
              && stopped != Some(TraceEnded)
              && Finished(start, init, limit, steps, taken + 1, interval', stopPoint', attempts', checks', stopped.value)
  {
    ReceivedIdsNext(steps, taken);
    FetchedStep(start, init, limit, steps, taken, Progress(Ids(buffer), stopPoint, attempts, checks, None));
    buffer', interval', stopPoint', attempts', stopped, checks' :=
      Round(buffer, interval, stopPoint, attempts, limit, steps[taken], start, ReceivedIds(steps[..taken]), init, checks);
    assert steps[..taken + 1][..taken] == steps[..taken];
    if stopped.None? {
      SamePending(attempts', Ids(buffer'), Fetched(start, init, limit, steps[..taken + 1]).pending,
                  ReceivedIds(steps[..taken + 1]));
    }
  }

  /**
   * `fetch_content`, driven by the finite trace `steps`. `stored` is the channel row's range,
   * None when it could not be read. It returns the final interval, the final stop point, the
   * batches handed to the database (in order), the number of turns taken and why the loop ended.
   * `checks` holds, for each flush made inside the loop (the first |checks| attempts), the stop
   * point its batch was checked against; an attempt beyond those is the flush that follows an
   * RPC 400 error or the end of history, which is not checked. So the loop stops at the stop
   * point exactly at the first in-loop flush that meets it.
   */
  method FetchContent(stored: Option<(Int32, Int32)>, limit: nat, steps: seq<Step>)
    returns (interval: Option<Span>, stopPoint: Int32, attempts: seq<Attempt>, taken: nat, reason: StopReason,
             ghost checks: seq<Int32>)
    requires limit <= U32_MAX
    ensures Finished(InitialInterval(stored), InitialStopPoint(InitialInterval(stored)), limit, steps, taken,
                     interval, stopPoint, attempts, checks, reason)
  {
    interval := InitialInterval(stored);
    stopPoint := InitialStopPoint(interval);
    ghost var start := interval;
    ghost var init := stopPoint;
    var buffer: seq<(Int32, Message)> := [];
    attempts := [];
    checks := [];
    taken := 0;
    reason := TraceEnded;
    while taken < |steps|
      invariant Between(start, init, limit, steps, taken, buffer, interval, stopPoint, attempts, checks)
      invariant reason == TraceEnded
    {
      var stopped;
      buffer, interval, stopPoint, attempts, stopped, checks :=
        Pass(buffer, interval, stopPoint, attempts, limit, steps, taken, start, init, checks);
      taken := taken + 1;
      if stopped.Some? {
        reason := stopped.value;
        break;
      }
    }
    if reason == TraceEnded {
      RanOut(start, init, limit, steps, buffer, interval, stopPoint, attempts, checks);
    }
  }
}
