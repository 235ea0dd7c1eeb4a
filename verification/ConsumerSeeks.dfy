/** Where a closed consumer resumes: the seeks of every run, and exactly when they are right. */
module ConsumerSeeks {
  import opened Wrappers
  import opened Consumer

  // ----- Where the consumer resumes

  /** The records of each partition come with ascending offsets, as a broker sends them. */
  predicate Ascending(records: seq<Record>) {
    forall i, j :: 0 <= i < j < |records| && PartitionOf(records[i]) == PartitionOf(records[j])
      ==> records[i].offset < records[j].offset
  }

  lemma {:induction false} FirstOffsetsAre(records: seq<Record>, p: Partition)
    ensures p in FirstOffsets(records) <==> exists i :: 0 <= i < |records| && PartitionOf(records[i]) == p
    ensures p in FirstOffsets(records) ==>
              exists i :: 0 <= i < |records| && IsFirst(records, i, p) && records[i].offset == FirstOffsets(records)[p]
  {
    if records != [] {
      var n := |records| - 1;
      FirstOffsetsAre(records[..n], p);
      if p in FirstOffsets(records[..n]) {
        var i :| 0 <= i < n && IsFirst(records[..n], i, p) && records[..n][i].offset == FirstOffsets(records[..n])[p];
        assert IsFirst(records, i, p);
      } else if PartitionOf(records[n]) == p {
        assert forall i :: 0 <= i < n ==> records[..n][i] == records[i];
        assert IsFirst(records, n, p);
      }
    }
  }

  /** Record `i` is the first one of partition `p`. */
  predicate IsFirst(records: seq<Record>, i: nat, p: Partition)
    requires i < |records|
  {
    PartitionOf(records[i]) == p && forall j :: 0 <= j < i ==> PartitionOf(records[j]) != p
  }

  /**
    Ascending polls: what a record's partition is sought to separates what was processed from what was
    not, so a resumed consumer sees every unprocessed record and no processed one.
   */
  lemma {:induction false} SeeksSeparate(received: seq<Record>, buffered: seq<Record>, i: nat)
    requires Ascending(received + buffered) && i < |received + buffered|
    ensures var r, seeks := (received + buffered)[i], FirstOffsets(buffered);
            (PartitionOf(r) in seeks && r.offset >= seeks[PartitionOf(r)]) <==> i >= |received|
  {
    var all := received + buffered;
    var r, p := all[i], PartitionOf(all[i]);
    FirstOffsetsAre(buffered, p);
    if i >= |received| {
      assert buffered[i - |received|] == r;
    }
    if p in FirstOffsets(buffered) {
      var k :| 0 <= k < |buffered| && IsFirst(buffered, k, p) && buffered[k].offset == FirstOffsets(buffered)[p];
      assert all[|received| + k] == buffered[k];
      assert i >= |received| ==> i - |received| >= k;
    }
  }

  predicate HasLeftover(buffered: seq<Record>, p: Partition) {
    exists i :: 0 <= i < |buffered| && PartitionOf(buffered[i]) == p
  }

  /** `offset` is the least leftover one of `p`, and above every received one. */
  predicate Resumes(received: seq<Record>, buffered: seq<Record>, p: Partition, offset: int) {
    && (exists i :: 0 <= i < |buffered| && PartitionOf(buffered[i]) == p && buffered[i].offset == offset)
    && (forall i :: 0 <= i < |buffered| && PartitionOf(buffered[i]) == p ==> offset <= buffered[i].offset)
    && (forall i :: 0 <= i < |received| && PartitionOf(received[i]) == p ==> received[i].offset < offset)
  }

  /** Exactly the partitions with leftovers are sought, each to where it resumes. */
  lemma {:induction false} SeeksResume(received: seq<Record>, buffered: seq<Record>, p: Partition)
    requires Ascending(received + buffered)
    ensures p in FirstOffsets(buffered) <==> HasLeftover(buffered, p)
    ensures p in FirstOffsets(buffered) ==> Resumes(received, buffered, p, FirstOffsets(buffered)[p])
  {
    FirstOffsetsAre(buffered, p);
    if p in FirstOffsets(buffered) {
      var offset := FirstOffsets(buffered)[p];
      var k :| 0 <= k < |buffered| && IsFirst(buffered, k, p) && buffered[k].offset == offset;
      forall i | 0 <= i < |buffered| && PartitionOf(buffered[i]) == p
        ensures offset <= buffered[i].offset
      {
        SeeksSeparate(received, buffered, |received| + i);
        assert (received + buffered)[|received| + i] == buffered[i];
      }
      forall i | 0 <= i < |received| && PartitionOf(received[i]) == p
        ensures received[i].offset < offset
      {
        SeeksSeparate(received, buffered, i);
        assert (received + buffered)[i] == received[i];
      }
    }
  }

  /**
    A whole run of the command, whatever the broker answers: every record brought was processed or is
    left over, the bound holds, and closing resumes each partition at its first unprocessed record.
   */
  method Consume(polls: seq<Poll>, o: Options)
    returns (count: nat, ended: Ended, used: nat, seeks: map<Partition, int>,
             ghost processed: seq<Record>, ghost leftover: seq<Record>)
    ensures Run(State(used, processed, leftover), ended) == RunOf(polls, o) && seeks == FirstOffsets(leftover)
    ensures Meant(polls, Run(State(used, processed, leftover), ended), o)
    ensures used <= |polls| && processed + leftover == Brought(polls[..used]) && |processed| == count
    ensures o.maxMessages >= 0 ==> count <= o.maxMessages
    ensures leftover != [] ==> InBatch(polls, State(used, processed, leftover))
    ensures Ascending(Brought(polls[..used])) ==>
              forall p ::
                && (p in seeks <==> HasLeftover(leftover, p))
                && (p in seeks ==> Resumes(processed, leftover, p, seeks[p]))
  {
    var stream := new Stream(polls);
    count, ended := stream.Process(o);
    seeks := stream.Unconsumed();
    used, processed, leftover := stream.at, stream.received, stream.buffered;
    RunStops(polls, START, o);
    RunMeans(polls, START, o);
    if Ascending(Brought(polls[..used])) {
      forall p
        ensures (p in seeks <==> HasLeftover(leftover, p)) && (p in seeks ==> Resumes(processed, leftover, p, seeks[p]))
      {
        SeeksResume(processed, leftover, p);
      }
    }
  }

  // ----- Where a run can stop

  predicate AllBatches(polls: seq<Poll>, n: nat)
    requires n <= |polls|
  {
    forall i :: 0 <= i < n ==> polls[i].Batch?
  }

  /** The state after `k` records of poll `j`. */
  function Within(polls: seq<Poll>, j: nat, k: nat): State
    requires j < |polls| && k <= |RecordsOf(polls[j])|
  {
    var records := RecordsOf(polls[j]);
    State(j + 1, Brought(polls[..j]) + records[..k], records[k..])
  }

  /** The leftover is the rest of the last poll, after its first record at least. */
  ghost predicate InBatch(polls: seq<Poll>, s: State) {
    && 0 < s.at <= |polls| && AllBatches(polls, s.at)
    && exists k: nat :: IsWithin(polls, s, k)
  }

  predicate IsWithin(polls: seq<Poll>, s: State, k: nat)
    requires 0 < s.at <= |polls|
  {
    0 < k <= |RecordsOf(polls[s.at - 1])| && s == Within(polls, s.at - 1, k)
  }

  /** A run between two receives. */
  ghost predicate Between(polls: seq<Poll>, s: State) {
    && s.at <= |polls| && AllBatches(polls, s.at)
    && (s.buffered != [] ==> InBatch(polls, s))
    && (s.buffered == [] ==> s.received == Brought(polls[..s.at]))
  }

  lemma BroughtNext(polls: seq<Poll>, j: nat)
    requires j < |polls|
    ensures Brought(polls[..j + 1]) == Brought(polls[..j]) + RecordsOf(polls[j])
  {
    assert polls[..j + 1][..j] == polls[..j];
  }

  /** One more record of poll `j` gives the next state within it. */
  lemma WithinNext(polls: seq<Poll>, j: nat, k: nat, s: State)
    requires j < |polls| && AllBatches(polls, j + 1) && k < |polls[j].records| && s == Within(polls, j, k)
    ensures State(s.at, s.received + [s.buffered[0]], s.buffered[1..]) == Within(polls, j, k + 1)
    ensures Between(polls, Within(polls, j, k + 1))
  {
    var records := polls[j].records;
    assert records[k..][1..] == records[k + 1..] && records[..k] + [records[k]] == records[..k + 1];
    assert Within(polls, j, k + 1).received == Brought(polls[..j]) + records[..k] + [records[k]];
    BroughtNext(polls, j);
    assert k + 1 == |records| ==> records[..k + 1] == records;
    assert IsWithin(polls, Within(polls, j, k + 1), k + 1);
  }

  lemma {:induction false} NextStays(polls: seq<Poll>, s: State, timed: bool)
    requires Between(polls, s)
    ensures var (t, stop) := Next(polls, s, timed);
            if stop.None? then Between(polls, t) else t.buffered == []
    decreases |polls| - s.at
  {
    if s.buffered != [] {
      var k: nat :| IsWithin(polls, s, k);
      WithinNext(polls, s.at - 1, k, s);
    } else if s.at < |polls| && Brings(polls[s.at], timed) {
      FreshPoll(polls, s, timed);
    }
  }

  /** A poll into an empty buffer: its first record is received, or it brought none. */
  lemma {:induction false} FreshPoll(polls: seq<Poll>, s: State, timed: bool)
    requires Between(polls, s) && s.buffered == [] && s.at < |polls| && Brings(polls[s.at], timed)
    ensures var (t, stop) := Next(polls, s, timed);
            if stop.None? then Between(polls, t) else t.buffered == []
    decreases |polls| - s.at, 0
  {
    var records := polls[s.at].records;
    var u := State(s.at + 1, s.received, records);
    assert Next(polls, s, timed) == Next(polls, u, timed);
    BroughtNext(polls, s.at);
    if records == [] {
      assert Brought(polls[..s.at]) + [] == Brought(polls[..s.at]);
      NextStays(polls, u, timed);
    } else {
      WithinStart(polls, s.at);
      WithinNext(polls, s.at, 0, u);
    }
  }

  lemma WithinStart(polls: seq<Poll>, j: nat)
    requires j < |polls|
    ensures Within(polls, j, 0) == State(j + 1, Brought(polls[..j]), RecordsOf(polls[j]))
  {
    var records := RecordsOf(polls[j]);
    assert records[..0] == [] && records[0..] == records;
    assert Brought(polls[..j]) + [] == Brought(polls[..j]);
  }

  /** Nothing is left over, or the rest of the last poll, which the run has begun. */
  ghost predicate GoodStop(polls: seq<Poll>, s: State) {
    s.buffered != [] ==> InBatch(polls, s)
  }

  lemma BetweenIsGood(polls: seq<Poll>, s: State)
    requires Between(polls, s)
    ensures GoodStop(polls, s)
  {
  }

  /** The run goes on from the next record, or stops with it, or stops without it. */
  lemma RunStep(polls: seq<Poll>, s: State, o: Options)
    requires s.at <= |polls| && !Bounded(o.maxMessages, |s.received|)
    ensures var (t, stop) := Next(polls, s, o.timed);
            || RunFrom(polls, s, o).stop == t
            || (stop.None? && RunFrom(polls, s, o) == RunFrom(polls, t, o))
  {
  }

  /** Whatever a run is asked for, what it leaves over is the rest of its last poll, which it has begun. */
  lemma {:induction false} RunStops(polls: seq<Poll>, s: State, o: Options)
    requires Between(polls, s)
    ensures GoodStop(polls, RunFrom(polls, s, o).stop)
    decreases |polls| - s.at, |s.buffered|
  {
    if Bounded(o.maxMessages, |s.received|) {
      BetweenIsGood(polls, s);
    } else {
      var (t, stop) := Next(polls, s, o.timed);
      NextStays(polls, s, o.timed);
      RunStep(polls, s, o);
      if stop.None? {
        BetweenIsGood(polls, t);
        RunStops(polls, t, o);
      }
    }
  }

  // ----- Every such stop is reached

  /** Ask for `count` records, render and write them all, and wait as long as it takes. */
  function Asking(count: nat): Options {
    Options(count, false, false, _ => Bytes(""), _ => true)
  }

  lemma {:induction false} BroughtGrows(polls: seq<Poll>, i: nat, j: nat)
    requires i <= j <= |polls|
    ensures |Brought(polls[..i])| <= |Brought(polls[..j])|
    decreases j
  {
    if i < j {
      BroughtGrows(polls, i, j - 1);
      BroughtNext(polls, j - 1);
      assert j - 1 + 1 == j;
    }
  }

  lemma {:induction false} NextAdvances(polls: seq<Poll>, s: State, j: nat)
    requires Accounted(polls, s.at, s.received, s.buffered) && j < |polls| && AllBatches(polls, j + 1)
    requires s.at <= j + 1 && |s.received| < |Brought(polls[..j + 1])|
    ensures var (t, stop) := Next(polls, s, false); stop.None? && t.at <= j + 1
    decreases |polls| - s.at
  {
    if s.buffered == [] {
      assert s.received + [] == s.received;
      assert s.at < j + 1;
      PollAccounted(polls, s.at, s.received);
      NextAdvances(polls, State(s.at + 1, s.received, polls[s.at].records), j);
    }
  }

  lemma {:induction false} AskingReaches(polls: seq<Poll>, s: State, j: nat, k: nat)
    requires Accounted(polls, s.at, s.received, s.buffered) && j < |polls| && AllBatches(polls, j + 1)
    requires 0 < k <= |polls[j].records| && s.at <= j + 1 && |s.received| <= |Brought(polls[..j])| + k
    ensures RunFrom(polls, s, Asking(|Brought(polls[..j])| + k)) == Run(Within(polls, j, k), Done)
    decreases |Brought(polls[..j])| + k - |s.received|
  {
    var count := |Brought(polls[..j])| + k;
    BroughtNext(polls, j);
    if |s.received| == count {
      ReachedWithin(polls, s, j, k);
    } else {
      NextAdvances(polls, s, j);
      NextAccounted(polls, s, false);
      AskingReaches(polls, Next(polls, s, false).0, j, k);
    }
  }

  /** Only one state has received so many records without polling on. */
  lemma ReachedWithin(polls: seq<Poll>, s: State, j: nat, k: nat)
    requires Accounted(polls, s.at, s.received, s.buffered) && j < |polls| && AllBatches(polls, j + 1)
    requires 0 < k <= |polls[j].records| && s.at <= j + 1 && |s.received| == |Brought(polls[..j])| + k
    ensures s == Within(polls, j, k)
  {
    if s.at <= j {
      BroughtGrows(polls, s.at, j);
      assert false;
    }
    BroughtNext(polls, j);
    var before, records := Brought(polls[..j]), polls[j].records;
    assert before + records == (before + records[..k]) + records[k..];
    SameSplit(s.received, s.buffered, before + records[..k], records[k..]);
  }

  lemma SameSplit(a: seq<Record>, b: seq<Record>, c: seq<Record>, d: seq<Record>)
    requires a + b == c + d && |a| == |c|
    ensures a == c && b == d
  {
    assert a == (a + b)[..|a|] && c == (c + d)[..|c|];
    assert b == (a + b)[|a|..] && d == (c + d)[|c|..];
  }

  /** A run that asks for as many records stops after `k` records of poll `j`. */
  lemma {:induction false} RunReaches(polls: seq<Poll>, j: nat, k: nat)
    requires j < |polls| && AllBatches(polls, j + 1) && 0 < k <= |polls[j].records|
    ensures RunOf(polls, Asking(|Brought(polls[..j])| + k)) == Run(Within(polls, j, k), Done)
  {
    AskingReaches(polls, START, j, k);
  }

  // ----- When the first offset is the right one

  /** The seeks of `buffered` tell every record of `received` from every record of `buffered`. */
  predicate Separates(received: seq<Record>, buffered: seq<Record>) {
    var seeks := FirstOffsets(buffered);
    && (forall r :: r in buffered ==> PartitionOf(r) in seeks && r.offset >= seeks[PartitionOf(r)])
    && (forall r :: r in received ==> PartitionOf(r) in seeks ==> r.offset < seeks[PartitionOf(r)])
  }

  /** The seek of the partition of the first buffered record is that record's offset. */
  lemma FirstIsSought(buffered: seq<Record>)
    requires buffered != []
    ensures PartitionOf(buffered[0]) in FirstOffsets(buffered)
    ensures FirstOffsets(buffered)[PartitionOf(buffered[0])] == buffered[0].offset
  {
    var p := PartitionOf(buffered[0]);
    FirstOffsetsAre(buffered, p);
    var i :| 0 <= i < |buffered| && IsFirst(buffered, i, p) && buffered[i].offset == FirstOffsets(buffered)[p];
    assert i == 0;
  }

  /** What is documented: each partition is sought to the least offset that it has in `buffered`. */
  predicate SeeksLeast(buffered: seq<Record>) {
    forall r :: r in buffered ==>
      PartitionOf(r) in FirstOffsets(buffered) && FirstOffsets(buffered)[PartitionOf(r)] <= r.offset
  }

  /** The offsets of each partition never go back. */
  predicate NeverBack(records: seq<Record>) {
    forall i, j :: 0 <= i < j < |records| && PartitionOf(records[i]) == PartitionOf(records[j])
      ==> records[i].offset <= records[j].offset
  }

  lemma NeverBackIsLeast(buffered: seq<Record>)
    requires NeverBack(buffered)
    ensures SeeksLeast(buffered)
  {
    forall i | 0 <= i < |buffered|
      ensures var p := PartitionOf(buffered[i]);
              p in FirstOffsets(buffered) && FirstOffsets(buffered)[p] <= buffered[i].offset
    {
      var p := PartitionOf(buffered[i]);
      FirstOffsetsAre(buffered, p);
      var k :| 0 <= k < |buffered| && IsFirst(buffered, k, p) && buffered[k].offset == FirstOffsets(buffered)[p];
      assert k <= i;
    }
  }

  /** The suffixes of a list are sought to their least offsets exactly when its offsets never go back. */
  lemma {:induction false} SuffixesLeast(all: seq<Record>)
    ensures (forall k :: 0 <= k <= |all| ==> SeeksLeast(all[k..])) <==> NeverBack(all)
  {
    if NeverBack(all) {
      forall k | 0 <= k <= |all|
        ensures SeeksLeast(all[k..])
      {
        NeverBackIsLeast(all[k..]);
      }
    }
    if forall k :: 0 <= k <= |all| ==> SeeksLeast(all[k..]) {
      forall i, j | 0 <= i < j < |all| && PartitionOf(all[i]) == PartitionOf(all[j])
        ensures all[i].offset <= all[j].offset
      {
        assert SeeksLeast(all[i..]);
        FirstIsSought(all[i..]);
        assert all[i..][0] == all[i] && all[i..][j - i] == all[j];
      }
    }
  }

  /** The records of a poll after its first one, which is processed whenever the poll is. */
  function Later(batch: seq<Record>): seq<Record> {
    if batch == [] then [] else batch[1..]
  }

  lemma {:induction false} BatchLeast(batch: seq<Record>)
    ensures (forall k :: 0 < k <= |batch| ==> SeeksLeast(batch[k..])) <==> NeverBack(Later(batch))
  {
    if batch != [] {
      var later := batch[1..];
      SuffixesLeast(later);
      assert forall k :: 0 <= k <= |later| ==> later[k..] == batch[k + 1..];
      assert forall k :: 0 < k <= |batch| ==> batch[k..] == later[k - 1..];
    }
  }

  /** Every record of `batch` but its first is above all earlier records of its partition. */
  predicate AboveEarlier(before: seq<Record>, batch: seq<Record>) {
    var all := before + batch;
    forall i, j :: 0 < j < |batch| && 0 <= i < |before| + j && PartitionOf(all[i]) == PartitionOf(batch[j]) ==>
      all[i].offset < batch[j].offset
  }

  lemma {:induction false} BatchSeparates(before: seq<Record>, batch: seq<Record>)
    ensures (forall k :: 0 < k <= |batch| ==> Separates(before + batch[..k], batch[k..]))
            <==> AboveEarlier(before, batch)
  {
    if AboveEarlier(before, batch) {
      forall k | 0 < k <= |batch|
        ensures Separates(before + batch[..k], batch[k..])
      {
        AboveSeparates(before, batch, k);
      }
    }
    if forall k :: 0 < k <= |batch| ==> Separates(before + batch[..k], batch[k..]) {
      var all := before + batch;
      forall i, j | 0 < j < |batch| && 0 <= i < |before| + j && PartitionOf(all[i]) == PartitionOf(batch[j])
        ensures all[i].offset < batch[j].offset
      {
        assert Separates(before + batch[..j], batch[j..]);
        FirstIsSought(batch[j..]);
        assert (before + batch[..j])[i] == all[i] && batch[j..][0] == batch[j];
      }
    }
  }

  lemma AboveSeparates(before: seq<Record>, batch: seq<Record>, k: nat)
    requires AboveEarlier(before, batch) && 0 < k <= |batch|
    ensures Separates(before + batch[..k], batch[k..])
  {
    var all, received, buffered := before + batch, before + batch[..k], batch[k..];
    assert all == received + buffered;
    forall i | 0 <= i < |all| && PartitionOf(all[i]) in FirstOffsets(buffered)
      ensures if i < |received| then all[i].offset < FirstOffsets(buffered)[PartitionOf(all[i])]
              else all[i].offset >= FirstOffsets(buffered)[PartitionOf(all[i])]
    {
      AboveFirst(before, batch, k, i);
    }
    forall i | 0 <= i < |buffered|
      ensures PartitionOf(buffered[i]) in FirstOffsets(buffered)
      ensures buffered[i].offset >= FirstOffsets(buffered)[PartitionOf(buffered[i])]
    {
      FirstOffsetsAre(buffered, PartitionOf(buffered[i]));
      assert all[|received| + i] == buffered[i];
    }
    assert forall i :: 0 <= i < |received| ==> all[i] == received[i];
  }

  lemma AboveFirst(before: seq<Record>, batch: seq<Record>, k: nat, i: nat)
    requires AboveEarlier(before, batch) && 0 < k <= |batch| && i < |before + batch|
    requires PartitionOf((before + batch)[i]) in FirstOffsets(batch[k..])
    ensures var r, seeks := (before + batch)[i], FirstOffsets(batch[k..]);
            if i < |before| + k then r.offset < seeks[PartitionOf(r)] else r.offset >= seeks[PartitionOf(r)]
  {
    var all, buffered := before + batch, batch[k..];
    var p := PartitionOf(all[i]);
    FirstOffsetsAre(buffered, p);
    var f :| 0 <= f < |buffered| && IsFirst(buffered, f, p) && buffered[f].offset == FirstOffsets(buffered)[p];
    assert batch[k + f] == buffered[f] && all[|before| + k + f] == buffered[f];
    if i >= |before| + k {
      var g := i - |before| - k;
      assert buffered[g] == all[i] && batch[k + g] == all[i];
      assert g >= f;
    }
  }

  // ----- Exactly when the seeks of every run are right

  lemma Reaching(polls: seq<Poll>, s: State) returns (o: Options)
    requires InBatch(polls, s)
    ensures RunOf(polls, o).stop == s
  {
    var k: nat :| IsWithin(polls, s, k);
    RunReaches(polls, s.at - 1, k);
    o := Asking(|Brought(polls[..s.at - 1])| + k);
  }

  /** A run over these polls can stop with a leftover exactly within a poll that it has begun. */
  lemma {:induction false} StopsExactly(polls: seq<Poll>, s: State)
    requires s.buffered != []
    ensures (exists o: Options :: RunOf(polls, o).stop == s) <==> InBatch(polls, s)
  {
    forall o: Options | RunOf(polls, o).stop == s
      ensures InBatch(polls, s)
    {
      RunStops(polls, START, o);
    }
    if InBatch(polls, s) {
      var o := Reaching(polls, s);
    }
  }

  /**
    The documented least offsets, in every run over these polls: exactly when within each poll that a run
    gets to, the records after the first never go back.
   */
  lemma {:induction false} SeeksLeastExactly(polls: seq<Poll>)
    ensures (forall o: Options :: SeeksLeast(RunOf(polls, o).stop.buffered))
            <==> forall j :: 0 <= j < |polls| && AllBatches(polls, j + 1) ==> NeverBack(Later(polls[j].records))
  {
    if forall j :: 0 <= j < |polls| && AllBatches(polls, j + 1) ==> NeverBack(Later(polls[j].records)) {
      forall o: Options
        ensures SeeksLeast(RunOf(polls, o).stop.buffered)
      {
        LeastInRun(polls, o);
      }
    }
    if forall o: Options :: SeeksLeast(RunOf(polls, o).stop.buffered) {
      forall j | 0 <= j < |polls| && AllBatches(polls, j + 1)
        ensures NeverBack(Later(polls[j].records))
      {
        LeastInBatch(polls, j);
      }
    }
  }

  lemma LeastInBatch(polls: seq<Poll>, j: nat)
    requires j < |polls| && AllBatches(polls, j + 1)
    requires forall o: Options :: SeeksLeast(RunOf(polls, o).stop.buffered)
    ensures NeverBack(Later(polls[j].records))
  {
    var records := polls[j].records;
    forall k: nat | 0 < k <= |records|
      ensures SeeksLeast(records[k..])
    {
      RunReaches(polls, j, k);
      assert SeeksLeast(RunOf(polls, Asking(|Brought(polls[..j])| + k)).stop.buffered);
    }
    BatchLeast(records);
  }

  lemma LeastInRun(polls: seq<Poll>, o: Options)
    requires forall j :: 0 <= j < |polls| && AllBatches(polls, j + 1) ==> NeverBack(Later(polls[j].records))
    ensures SeeksLeast(RunOf(polls, o).stop.buffered)
  {
    RunStops(polls, START, o);
    var s := RunOf(polls, o).stop;
    if s.buffered != [] {
      var k: nat :| IsWithin(polls, s, k);
      BatchLeast(polls[s.at - 1].records);
      assert s.buffered == polls[s.at - 1].records[k..];
    }
  }

  /**
    Seeks that separate processed from unprocessed records, in every run over these polls: exactly when
    in each poll that a run gets to, every record but the first is above all earlier ones of its partition.
   */
  lemma {:induction false} SeeksSeparateExactly(polls: seq<Poll>)
    ensures (forall o: Options :: Separates(RunOf(polls, o).stop.received, RunOf(polls, o).stop.buffered))
            <==> forall j :: 0 <= j < |polls| && AllBatches(polls, j + 1) ==>
                   AboveEarlier(Brought(polls[..j]), polls[j].records)
  {
    if forall j :: 0 <= j < |polls| && AllBatches(polls, j + 1) ==>
         AboveEarlier(Brought(polls[..j]), polls[j].records)
    {
      forall o: Options
        ensures Separates(RunOf(polls, o).stop.received, RunOf(polls, o).stop.buffered)
      {
        SeparateInRun(polls, o);
      }
    }
    if forall o: Options :: Separates(RunOf(polls, o).stop.received, RunOf(polls, o).stop.buffered) {
      forall j | 0 <= j < |polls| && AllBatches(polls, j + 1)
        ensures AboveEarlier(Brought(polls[..j]), polls[j].records)
      {
        SeparateInBatch(polls, j);
      }
    }
  }

  lemma SeparateInBatch(polls: seq<Poll>, j: nat)
    requires j < |polls| && AllBatches(polls, j + 1)
    requires forall o: Options :: Separates(RunOf(polls, o).stop.received, RunOf(polls, o).stop.buffered)
    ensures AboveEarlier(Brought(polls[..j]), polls[j].records)
  {
    var before, records := Brought(polls[..j]), polls[j].records;
    forall k: nat | 0 < k <= |records|
      ensures Separates(before + records[..k], records[k..])
    {
      RunReaches(polls, j, k);
      var o := Asking(|before| + k);
      assert Separates(RunOf(polls, o).stop.received, RunOf(polls, o).stop.buffered);
    }
    BatchSeparates(before, records);
  }

  lemma SeparateInRun(polls: seq<Poll>, o: Options)
    requires forall j :: 0 <= j < |polls| && AllBatches(polls, j + 1) ==>
               AboveEarlier(Brought(polls[..j]), polls[j].records)
    ensures Separates(RunOf(polls, o).stop.received, RunOf(polls, o).stop.buffered)
  {
    RunStops(polls, START, o);
    var s := RunOf(polls, o).stop;
    if s.buffered != [] {
      var j := s.at - 1;
      var k: nat :| IsWithin(polls, s, k);
      BatchSeparates(Brought(polls[..j]), polls[j].records);
      assert Separates(Brought(polls[..j]) + polls[j].records[..k], polls[j].records[k..]);
    }
  }

  /** One poll of offsets 1, 5 and 3: a run bounded to one record seeks to 5, past the unprocessed 3. */
  lemma {:induction false} SeeksPastUnprocessed(one: Record, five: Record, three: Record)
    requires PartitionOf(one) == PartitionOf(five) == PartitionOf(three)
    requires one.offset == 1 && five.offset == 5 && three.offset == 3
    ensures var run := RunOf([Batch([one, five, three], false)], Asking(1));
            && run == Run(State(1, [one], [five, three]), Done)
            && FirstOffsets(run.stop.buffered) == map[PartitionOf(five) := 5]
            && !SeeksLeast(run.stop.buffered) && !Separates(run.stop.received, run.stop.buffered)
  {
    var polls, buffered := [Batch([one, five, three], false)], [five, three];
    assert polls[..0] == [] && [one, five, three][..1] == [one] && [one, five, three][1..] == buffered;
    RunReaches(polls, 0, 1);
    assert Within(polls, 0, 1).received == [one];
    assert buffered[..1] == [five] && [five][..0] == [];
    assert FirstOffsets([five]) == map[PartitionOf(five) := 5];
    assert three in buffered;
  }
}
