/** The receive, process and close loop of the console consumer. */
module Consumer {
  import opened Wrappers

  datatype Record = Record(topic: string, partition: int, offset: int, value: string)

  datatype Partition = Partition(topic: string, partition: int)

  function PartitionOf(r: Record): (p: Partition)
    ensures p.topic == r.topic && p.partition == r.partition
  {
    Partition(r.topic, r.partition)
  }

  /** What one poll of the broker brings; `late` says that the receive timeout has passed after it. */
  datatype Poll = Batch(records: seq<Record>, late: bool) | PollFailed(message: string) | Cancel

  datatype Stop = Timeout | Cancelled | Failed(message: string)

  datatype Received = Got(record: Record) | Stopped(why: Stop)

  datatype Ended = Done | EndCancelled | EndFailed(message: string)

  datatype Rendered = Bytes(text: string) | RenderError(message: string)

  /** The records that the first `n` polls bring. */
  function Brought(polls: seq<Poll>): seq<Record> {
    if polls == [] then []
    else Brought(polls[..|polls| - 1]) + RecordsOf(polls[|polls| - 1])
  }

  function RecordsOf(poll: Poll): seq<Record> {
    if poll.Batch? then poll.records else []
  }

  /** Every record that the first `at` polls brought was received or is buffered, in the order it came. */
  ghost predicate Accounted(polls: seq<Poll>, at: nat, received: seq<Record>, buffered: seq<Record>) {
    at <= |polls| && received + buffered == Brought(polls[..at])
  }

  lemma PollAccounted(polls: seq<Poll>, at: nat, received: seq<Record>)
    requires Accounted(polls, at, received, []) && at < |polls|
    ensures Accounted(polls, at + 1, received, RecordsOf(polls[at]))
  {
    assert polls[..at + 1][..at] == polls[..at];
    assert received + [] == received;
  }

  lemma ReceiveAccounted(polls: seq<Poll>, at: nat, received: seq<Record>, buffered: seq<Record>)
    requires Accounted(polls, at, received, buffered) && buffered != []
    ensures Accounted(polls, at, received + [buffered[0]], buffered[1..])
  {
    assert received + buffered == received + [buffered[0]] + buffered[1..];
  }

  /** A poll after which the wait goes on, with its records if it brought any. */
  predicate Brings(poll: Poll, timed: bool) {
    poll.Batch? && !(poll.records == [] && timed && poll.late)
  }

  /** Polls that bring nothing and do not end the wait. */
  predicate Quiet(polls: seq<Poll>, from: nat, to: int, timed: bool)
    requires to <= |polls|
  {
    forall i :: from <= i < to ==> Brings(polls[i], timed) && polls[i].records == []
  }

  /** The polls end in the reason to stop. */
  predicate StopReason(polls: seq<Poll>, at: nat, timed: bool, why: Stop)
    requires at <= |polls|
  {
    match why
    case Timeout => timed && at > 0 && polls[at - 1] == Batch([], true)
    case Cancelled => at == |polls| || (at > 0 && polls[at - 1] == Cancel)
    case Failed(message) => at > 0 && polls[at - 1] == PollFailed(message)
  }

  // ----- A run, as a function of the polls

  /** What the command line asks for; `writes` says whether the output takes what it gets after a count. */
  datatype Options = Options(maxMessages: int, timed: bool, skipOnError: bool, render: Record -> Rendered,
                             writes: nat -> bool)

  /** The polls used, the records received so far, and those that are buffered. */
  datatype State = State(at: nat, received: seq<Record>, buffered: seq<Record>)

  const START: State := State(0, [], [])

  /** `receive`: one more record received, or a reason to stop. */
  function Next(polls: seq<Poll>, s: State, timed: bool): (r: (State, Option<Stop>))
    requires s.at <= |polls|
    ensures s.at <= r.0.at <= |polls|
    ensures r.1.None? ==> |r.0.received| == |s.received| + 1 && (r.0.at > s.at || |r.0.buffered| < |s.buffered|)
    decreases |polls| - s.at
  {
    if s.buffered != [] then (State(s.at, s.received + [s.buffered[0]], s.buffered[1..]), None)
    else if s.at == |polls| then (s, Some(Cancelled))
    else
      var t := State(s.at + 1, s.received, RecordsOf(polls[s.at]));
      match polls[s.at]
      case PollFailed(message) => (t, Some(Failed(message)))
      case Cancel => (t, Some(Cancelled))
      case Batch(records, late) => if records == [] && timed && late then (t, Some(Timeout)) else Next(polls, t, timed)
  }

  predicate Bounded(maxMessages: int, count: nat) {
    maxMessages != -1 && (maxMessages < 0 || count >= maxMessages)
  }

  function EndOf(why: Stop): Ended {
    match why
    case Timeout => Done
    case Cancelled => EndCancelled
    case Failed(message) => EndFailed(message)
  }

  /** Why the run ends after record `count`, if it does. */
  function EndAfter(record: Record, count: nat, o: Options): Option<Ended> {
    match o.render(record)
    case Bytes(_) => if o.writes(count) then None else Some(Done)
    case RenderError(message) => if o.skipOnError then None else Some(EndFailed(message))
  }

  datatype Run = Run(stop: State, ended: Ended)

  /** `process`, from a state. */
  function RunFrom(polls: seq<Poll>, s: State, o: Options): Run
    requires s.at <= |polls|
    decreases |polls| - s.at, |s.buffered|
  {
    if Bounded(o.maxMessages, |s.received|) then Run(s, Done)
    else
      var (t, stop) := Next(polls, s, o.timed);
      if stop.Some? then Run(t, EndOf(stop.value))
      else
        var count := |t.received|;
        var end := EndAfter(t.received[count - 1], count, o);
        if end.Some? then Run(t, end.value) else RunFrom(polls, t, o)
  }

  function RunOf(polls: seq<Poll>, o: Options): Run {
    RunFrom(polls, START, o)
  }

  /** What one receive does: the buffer first, then the first poll that brings any after quiet ones. */
  lemma {:induction false} NextMeans(polls: seq<Poll>, s: State, timed: bool)
    requires s.at <= |polls|
    ensures var (t, stop) := Next(polls, s, timed);
            && (s.buffered != [] ==>
                  stop.None? && t == State(s.at, s.received + [s.buffered[0]], s.buffered[1..]))
            && (s.buffered == [] && stop.None? ==>
                  && s.at < t.at && Quiet(polls, s.at, t.at - 1, timed)
                  && Brings(polls[t.at - 1], timed) && polls[t.at - 1].records != []
                  && t.received == s.received + [polls[t.at - 1].records[0]]
                  && t.buffered == polls[t.at - 1].records[1..])
            && (stop.Some? ==>
                  && t.received == s.received && t.buffered == [] && Quiet(polls, s.at, t.at - 1, timed)
                  && StopReason(polls, t.at, timed, stop.value))
    decreases |polls| - s.at
  {
    if s.buffered == [] && s.at < |polls| && Brings(polls[s.at], timed) {
      NextMeans(polls, State(s.at + 1, s.received, polls[s.at].records), timed);
    }
  }

  /** The consumer, with the polls that the broker will answer, and the records not processed yet. */
  class Stream {
    const polls: seq<Poll>
    var at: nat
    var buffered: seq<Record>
    ghost var received: seq<Record>

    ghost predicate Valid()
      reads this
    {
      Accounted(polls, at, received, buffered)
    }

    ghost function Now(): State
      reads this
    {
      State(at, received, buffered)
    }

    constructor (polls: seq<Poll>)
      ensures Valid() && this.polls == polls && Now() == START
    {
      this.polls, at, buffered, received := polls, 0, [], [];
    }

    /** One poll of `receive`, and why it stops if it does; after the last poll the run is cancelled. */
    method Await(timed: bool) returns (stop: Option<Stop>)
      requires Valid() && buffered == []
      modifies this`at, this`buffered
      ensures Valid()
      ensures stop.None? ==>
                && old(at) < |polls| && at == old(at) + 1
                && Brings(polls[old(at)], timed) && buffered == polls[old(at)].records
      ensures stop.Some? ==> old(at) <= at <= old(at) + 1 && buffered == [] && StopReason(polls, at, timed, stop.value)
      ensures Next(polls, old(Now()), timed) == if stop.Some? then (Now(), stop) else Next(polls, Now(), timed)
    {
      if at == |polls| {
        return Some(Cancelled);
      }
      var poll := polls[at];
      PollAccounted(polls, at, received);
      at := at + 1;
      match poll
      case PollFailed(message) =>
        return Some(Failed(message));
      case Cancel =>
        return Some(Cancelled);
      case Batch(records, late) =>
        assert buffered + records == records;
        buffered := buffered + records;
        return if buffered == [] && timed && late then Some(Timeout) else None;
    }

    /** `receive`: the next buffered record, or the first one of the first poll that brings any. */
    method Receive(timed: bool) returns (r: Received)
      requires Valid()
      modifies this
      ensures Valid()
      ensures Next(polls, old(Now()), timed) == (Now(), if r.Got? then None else Some(r.why))
      ensures received == old(received) + if r.Got? then [r.record] else []
    {
      ghost var outcome := Next(polls, Now(), timed);
      while true
        invariant Valid() && received == old(received)
        invariant Next(polls, Now(), timed) == outcome
        decreases |polls| - at
      {
        if buffered != [] {
          r := Got(buffered[0]);
          ReceiveAccounted(polls, at, received, buffered);
          received := received + [buffered[0]];
          buffered := buffered[1..];
          return;
        }
        var stop := Await(timed);
        if stop.Some? {
          return Stopped(stop.value);
        }
      }
    }

    /** `process`: receives, counts and writes until the bound, a stop or an error. */
    method Process(o: Options) returns (count: nat, ended: Ended)
      requires Valid() && Now() == START
      modifies this
      ensures Valid() && count == |received|
      ensures Run(Now(), ended) == RunOf(polls, o)
    {
      count := 0;
      ghost var outcome := RunOf(polls, o);
      while true
        invariant Valid() && count == |received|
        invariant RunFrom(polls, Now(), o) == outcome
        decreases |polls| - at, |buffered|
      {
        if o.maxMessages != -1 && (o.maxMessages < 0 || count >= o.maxMessages) {
          return count, Done;
        }
        var r := Receive(o.timed);
        match r
        case Stopped(Timeout) =>
          return count, Done;
        case Stopped(Cancelled) =>
          return count, EndCancelled;
        case Stopped(Failed(message)) =>
          return count, EndFailed(message);
        case Got(record) =>
          count := count + 1;
          match o.render(record)
          case Bytes(_) =>
            if !o.writes(count) {
              return count, Done;
            }
          case RenderError(message) =>
            if !o.skipOnError {
              return count, EndFailed(message);
            }
      }
    }

    /** `unconsumed`, the seeks of `close`: the first buffered offset of each partition. */
    method Unconsumed() returns (seeks: map<Partition, int>)
      ensures seeks == FirstOffsets(buffered)
    {
      seeks := map[];
      for i := 0 to |buffered|
        invariant seeks == FirstOffsets(buffered[..i])
      {
        var p := PartitionOf(buffered[i]);
        assert buffered[..i + 1][..i] == buffered[..i];
        if p !in seeks {
          seeks := seeks[p := buffered[i].offset];
        }
      }
      assert buffered[..|buffered|] == buffered;
    }
  }

  function FirstOffsets(records: seq<Record>): map<Partition, int> {
    if records == [] then map[]
    else
      var earlier, last := FirstOffsets(records[..|records| - 1]), records[|records| - 1];
      if PartitionOf(last) in earlier then earlier else earlier[PartitionOf(last) := last.offset]
  }

  // ----- What every run gives

  /** A record was rendered and written, or skipped for its error. */
  predicate Through(record: Record, count: nat, o: Options) {
    match o.render(record)
    case Bytes(_) => o.writes(count)
    case RenderError(_) => o.skipOnError
  }

  /** The first records went through. */
  predicate WentThrough(received: seq<Record>, upTo: int, o: Options)
    requires upTo <= |received|
  {
    forall i :: 0 <= i < upTo ==> Through(received[i], i + 1, o)
  }

  /** Why a run ended as it did. */
  ghost predicate HasCause(polls: seq<Poll>, run: Run, o: Options)
    requires run.stop.at <= |polls|
  {
    var State(at, received, buffered) := run.stop;
    var count := |received|;
    match run.ended
    case EndCancelled => buffered == [] && StopReason(polls, at, o.timed, Cancelled)
    case EndFailed(message) =>
      || (buffered == [] && StopReason(polls, at, o.timed, Failed(message)))
      || (count > 0 && o.render(received[count - 1]) == RenderError(message) && !o.skipOnError)
    case Done =>
      || (o.maxMessages != -1 && count >= o.maxMessages)
      || (buffered == [] && StopReason(polls, at, o.timed, Timeout))
      || (count > 0 && o.render(received[count - 1]).Bytes? && !o.writes(count))
  }

  /**
    Every run: its records are accounted for, it stays within the bound, all records but the last went
    through, and it ended for a cause.
   */
  ghost predicate Meant(polls: seq<Poll>, run: Run, o: Options) {
    var State(at, received, buffered) := run.stop;
    && Accounted(polls, at, received, buffered)
    && (o.maxMessages >= 0 ==> |received| <= o.maxMessages)
    && (o.maxMessages < -1 ==> received == [])
    && WentThrough(received, |received| - 1, o)
    && HasCause(polls, run, o)
  }

  /** A state in which a run goes on. */
  ghost predicate GoesOn(polls: seq<Poll>, s: State, o: Options) {
    && Accounted(polls, s.at, s.received, s.buffered)
    && (o.maxMessages >= 0 ==> |s.received| <= o.maxMessages)
    && (o.maxMessages < -1 ==> s.received == [])
    && WentThrough(s.received, |s.received|, o)
  }

  lemma {:induction false} RunMeans(polls: seq<Poll>, s: State, o: Options)
    requires GoesOn(polls, s, o)
    ensures Meant(polls, RunFrom(polls, s, o), o)
    decreases |polls| - s.at, |s.buffered|
  {
    if !Bounded(o.maxMessages, |s.received|) {
      var (t, stop) := Next(polls, s, o.timed);
      if stop.Some? {
        StopMeans(polls, s, o);
      } else {
        TurnMeans(polls, s, o);
        if EndAfter(t.received[|t.received| - 1], |t.received|, o).None? {
          RunMeans(polls, t, o);
        }
      }
    }
  }

  lemma StopMeans(polls: seq<Poll>, s: State, o: Options)
    requires GoesOn(polls, s, o) && Next(polls, s, o.timed).1.Some?
    ensures var (t, stop) := Next(polls, s, o.timed); Meant(polls, Run(t, EndOf(stop.value)), o)
  {
    NextMeans(polls, s, o.timed);
    NextAccounted(polls, s, o.timed);
  }

  /** One more record, after which the run goes on or ends. */
  lemma TurnMeans(polls: seq<Poll>, s: State, o: Options)
    requires GoesOn(polls, s, o) && !Bounded(o.maxMessages, |s.received|) && Next(polls, s, o.timed).1.None?
    ensures var t := Next(polls, s, o.timed).0;
            var end := EndAfter(t.received[|t.received| - 1], |t.received|, o);
            if end.None? then GoesOn(polls, t, o) else Meant(polls, Run(t, end.value), o)
  {
    NextAccounted(polls, s, o.timed);
    NextMeans(polls, s, o.timed);
    var t := Next(polls, s, o.timed).0;
    StillThrough(s.received, t.received, o);
  }

  lemma StillThrough(received: seq<Record>, more: seq<Record>, o: Options)
    requires WentThrough(received, |received|, o) && |more| == |received| + 1 && more[..|received|] == received
    ensures WentThrough(more, |received|, o)
    ensures EndAfter(more[|received|], |more|, o).None? ==> WentThrough(more, |more|, o)
  {
    assert forall i :: 0 <= i < |received| ==> more[i] == received[i];
  }

  lemma {:induction false} NextAccounted(polls: seq<Poll>, s: State, timed: bool)
    requires Accounted(polls, s.at, s.received, s.buffered)
    ensures var t := Next(polls, s, timed).0; Accounted(polls, t.at, t.received, t.buffered)
    decreases |polls| - s.at
  {
    if s.buffered != [] {
      ReceiveAccounted(polls, s.at, s.received, s.buffered);
    } else if s.at < |polls| {
      PollAccounted(polls, s.at, s.received);
      if Brings(polls[s.at], timed) {
        NextAccounted(polls, State(s.at + 1, s.received, polls[s.at].records), timed);
      }
    }
  }
}
