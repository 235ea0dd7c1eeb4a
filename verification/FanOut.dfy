/** The bounded executor: at most `limit` requests in flight, outputs in the order of the inputs. */
module FanOut {
  import opened Naturals
  import opened Wrappers

  /** Items below `next` were started; `running` holds those in flight, `finished` the completion order. */
  datatype State = State(next: nat, running: seq<nat>, finished: seq<nat>)

  /** Starts pending items, in input order, while fewer than `limit` run. */
  function Fill(s: State, n: nat, limit: nat): State
    decreases n - s.next
  {
    if |s.running| < limit && s.next < n then Fill(State(s.next + 1, s.running + [s.next], s.finished), n, limit)
    else s
  }

  /** `Vec::swap_remove`: the last element takes the place of the removed one. */
  function SwapRemove<T>(s: seq<T>, slot: nat): seq<T>
    requires slot < |s|
  {
    s[slot := s[|s| - 1]][..|s| - 1]
  }

  function Complete(s: State, slot: nat): State
    requires slot < |s.running|
  {
    State(s.next, SwapRemove(s.running, slot), s.finished + [s.running[slot]])
  }

  /** The slots that completed, in order, lead from the start to `s`, which waits for the next one. */
  ghost predicate Reaches(n: nat, limit: nat, slots: seq<nat>, s: State)
    decreases |slots|
  {
    if slots == [] then s == Fill(State(0, [], []), n, limit)
    else
      var k := |slots| - 1;
      exists t: State :: Reaches(n, limit, slots[..k], t) && Turn(t, slots[k], s, n, limit)
  }

  /** The future at `slot` completes, and what then fits is started. */
  ghost predicate Turn(t: State, slot: nat, s: State, n: nat, limit: nat) {
    slot < |t.running| && s == Fill(Complete(t, slot), n, limit)
  }

  /** Whenever the executor waits: what was started is what runs or is done, and it runs all it may. */
  ghost predicate Waiting(s: State, n: nat, limit: nat) {
    && s.next == Min(n, limit + |s.finished|)
    && multiset(s.running) + multiset(s.finished) == multiset(Iota(s.next))
  }

  lemma IotaNext(n: nat)
    ensures multiset(Iota(n + 1)) == multiset(Iota(n)) + multiset{n}
  {
    assert Iota(n + 1) == Iota(n) + [n];
  }

  lemma {:induction false} FillWaits(s: State, n: nat, limit: nat)
    requires s.next <= Min(n, limit + |s.finished|)
    requires multiset(s.running) + multiset(s.finished) == multiset(Iota(s.next))
    ensures Waiting(Fill(s, n, limit), n, limit) && Fill(s, n, limit).finished == s.finished
    decreases n - s.next
  {
    Sizes(s);
    if |s.running| < limit && s.next < n {
      IotaNext(s.next);
      assert multiset(s.running + [s.next]) == multiset(s.running) + multiset{s.next};
      FillWaits(State(s.next + 1, s.running + [s.next], s.finished), n, limit);
    }
  }

  lemma Sizes(s: State)
    requires multiset(s.running) + multiset(s.finished) == multiset(Iota(s.next))
    ensures |s.running| + |s.finished| == s.next
  {
    assert |multiset(s.running) + multiset(s.finished)| == |s.running| + |s.finished|;
  }

  lemma SwapRemoved<T>(s: seq<T>, slot: nat)
    requires slot < |s|
    ensures multiset(s) == multiset(SwapRemove(s, slot)) + multiset{s[slot]}
  {
    var last := |s| - 1;
    assert s == s[..last] + [s[last]];
    if slot < last {
      assert s[..last] == s[..slot] + [s[slot]] + s[slot + 1..last];
      assert SwapRemove(s, slot) == s[..slot] + [s[last]] + s[slot + 1..last];
    } else {
      assert SwapRemove(s, slot) == s[..last];
    }
  }

  lemma CompleteWaits(s: State, slot: nat, n: nat, limit: nat)
    requires Waiting(s, n, limit) && slot < |s.running|
    ensures Waiting(Fill(Complete(s, slot), n, limit), n, limit)
    ensures Fill(Complete(s, slot), n, limit).finished == s.finished + [s.running[slot]]
  {
    SwapRemoved(s.running, slot);
    FillWaits(Complete(s, slot), n, limit);
  }

  /** Every run, whatever completes when: the executor is in order whenever it waits. */
  lemma {:induction false} EveryRunWaits(n: nat, limit: nat, slots: seq<nat>, s: State)
    requires Reaches(n, limit, slots, s)
    ensures Waiting(s, n, limit) && |s.finished| == |slots|
    decreases |slots|
  {
    if slots == [] {
      FillWaits(State(0, [], []), n, limit);
    } else {
      var k := |slots| - 1;
      var t: State :| Reaches(n, limit, slots[..k], t) && Turn(t, slots[k], s, n, limit);
      EveryRunWaits(n, limit, slots[..k], t);
      CompleteWaits(t, slots[k], n, limit);
    }
  }

  /** What `Waiting` means: exactly `min(limit, remaining)` run, and every started item is in one place. */
  lemma {:induction false} WaitingMeans(s: State, n: nat, limit: nat)
    requires Waiting(s, n, limit)
    ensures |s.finished| <= n && |s.running| == Min(limit, n - |s.finished|)
    ensures forall i: nat :: InOnePlace(s, i)
  {
    Sizes(s);
    forall i: nat
      ensures InOnePlace(s, i)
    {
      var whole := multiset(s.running) + multiset(s.finished);
      assert whole[i] == multiset(s.running)[i] + multiset(s.finished)[i];
      if i < s.next {
        IotaOnce(s.next, i);
      } else {
        assert i !in Iota(s.next);
        assert multiset(Iota(s.next))[i] == 0;
      }
    }
  }

  /** A started item runs or is finished, once; any other is neither. */
  ghost predicate InOnePlace(s: State, i: nat) {
    multiset(s.running)[i] + multiset(s.finished)[i] == if i < s.next then 1 else 0
  }

  // ----- Which completion orders are possible

  /** No item finishes twice, and the `j`th to finish is among the first `limit + j` items. */
  ghost predicate PossibleOrder(order: seq<nat>, n: nat, limit: nat) {
    && (forall j :: 0 <= j < |order| ==> order[j] < Min(n, limit + j))
    && (forall i, j :: 0 <= i < j < |order| ==> order[i] != order[j])
  }

  lemma {:induction false} OrderOfRun(n: nat, limit: nat, slots: seq<nat>, s: State)
    requires Reaches(n, limit, slots, s)
    ensures PossibleOrder(s.finished, n, limit)
    decreases |slots|
  {
    if slots == [] {
      FillWaits(State(0, [], []), n, limit);
    } else {
      var k := |slots| - 1;
      var t: State :| Reaches(n, limit, slots[..k], t) && Turn(t, slots[k], s, n, limit);
      OrderOfRun(n, limit, slots[..k], t);
      EveryRunWaits(n, limit, slots[..k], t);
      CompleteWaits(t, slots[k], n, limit);
      NewlyFinished(t, n, limit, slots[k]);
      PossibleNext(t.finished, t.running[slots[k]], n, limit);
    }
  }

  lemma PossibleNext(order: seq<nat>, i: nat, n: nat, limit: nat)
    requires PossibleOrder(order, n, limit) && i < Min(n, limit + |order|) && i !in order
    ensures PossibleOrder(order + [i], n, limit)
  {
  }

  lemma NewlyFinished(t: State, n: nat, limit: nat, slot: nat)
    requires Waiting(t, n, limit) && slot < |t.running|
    ensures t.running[slot] < t.next && t.running[slot] !in t.finished
  {
    WaitingMeans(t, n, limit);
    var i := t.running[slot];
    assert InOnePlace(t, i);
    assert i in multiset(t.running);
  }

  lemma {:induction false} RunOfOrder(n: nat, limit: nat, order: seq<nat>) returns (slots: seq<nat>, s: State)
    requires PossibleOrder(order, n, limit)
    ensures Reaches(n, limit, slots, s) && s.finished == order
    decreases |order|
  {
    if order == [] {
      slots, s := [], Fill(State(0, [], []), n, limit);
      FillWaits(State(0, [], []), n, limit);
    } else {
      var k := |order| - 1;
      var before, t := RunOfOrder(n, limit, order[..k]);
      assert order == order[..k] + [order[k]];
      assert order[k] !in order[..k];
      slots, s := RunOneMore(n, limit, before, t, order[k]);
    }
  }

  /** An item among the first `limit + j` can finish as the `j`th. */
  lemma RunOneMore(n: nat, limit: nat, slots: seq<nat>, t: State, i: nat) returns (slots': seq<nat>, s: State)
    requires Reaches(n, limit, slots, t) && i < Min(n, limit + |t.finished|) && i !in t.finished
    ensures Reaches(n, limit, slots', s) && s.finished == t.finished + [i]
  {
    EveryRunWaits(n, limit, slots, t);
    var slot := SlotOf(t, n, limit, i);
    CompleteWaits(t, slot, n, limit);
    ReachesNext(n, limit, slots, t, slot);
    slots', s := slots + [slot], Fill(Complete(t, slot), n, limit);
  }

  lemma ReachesNext(n: nat, limit: nat, slots: seq<nat>, s: State, slot: nat)
    requires Reaches(n, limit, slots, s) && slot < |s.running|
    ensures Reaches(n, limit, slots + [slot], Fill(Complete(s, slot), n, limit))
  {
    assert (slots + [slot])[..|slots|] == slots;
    assert Turn(s, slot, Fill(Complete(s, slot), n, limit), n, limit);
  }

  lemma SlotOf(t: State, n: nat, limit: nat, i: nat) returns (slot: nat)
    requires Waiting(t, n, limit) && i < t.next && i !in t.finished
    ensures slot < |t.running| && t.running[slot] == i
  {
    WaitingMeans(t, n, limit);
    assert InOnePlace(t, i) && i !in multiset(t.finished);
    assert i in multiset(t.running);
    slot :| 0 <= slot < |t.running| && t.running[slot] == i;
  }

  /** A completion order can happen exactly when it is possible in this sense. */
  lemma {:induction false} OrdersExactly(n: nat, limit: nat, order: seq<nat>)
    ensures (exists slots: seq<nat>, s: State :: Reaches(n, limit, slots, s) && s.finished == order)
            <==> PossibleOrder(order, n, limit)
  {
    if PossibleOrder(order, n, limit) {
      var slots, s := RunOfOrder(n, limit, order);
      assert Reaches(n, limit, slots, s) && s.finished == order;
    }
    if exists slots: seq<nat>, s: State :: Reaches(n, limit, slots, s) && s.finished == order {
      var slots: seq<nat>, s: State :| Reaches(n, limit, slots, s) && s.finished == order;
      OrderOfRun(n, limit, slots, s);
    }
  }

  // ----- The executor

  function Indices<F>(running: seq<(nat, F)>): (s: seq<nat>)
    ensures |s| == |running|
  {
    seq(|running|, i requires 0 <= i < |running| => running[i].0)
  }

  ghost predicate Futures<T, F>(running: seq<(nat, F)>, items: seq<T>, start: T -> F) {
    forall i :: 0 <= i < |running| ==> running[i].0 < |items| && running[i].1 == start(items[running[i].0])
  }

  /** The inner loop: starts pending items while there is room. */
  method StartPending<T, F>(items: seq<T>, limit: nat, next: nat, running: seq<(nat, F)>, start: T -> F,
                            ghost finished: seq<nat>)
    returns (next': nat, running': seq<(nat, F)>)
    requires next <= |items| && Futures(running, items, start)
    ensures next' <= |items| && Futures(running', items, start)
    ensures State(next', Indices(running'), finished) == Fill(State(next, Indices(running), finished), |items|, limit)
  {
    next', running' := next, running;
    while |running'| < limit && next' < |items|
      invariant next <= next' <= |items| && Futures(running', items, start)
      invariant Fill(State(next', Indices(running'), finished), |items|, limit)
                == Fill(State(next, Indices(running), finished), |items|, limit)
      decreases |items| - next'
    {
      var future := (next', start(items[next']));
      assert Indices(running' + [future]) == Indices(running') + [next'];
      running', next' := running' + [future], next' + 1;
    }
  }

  /** The slots hold the outputs of the completed items. */
  ghost predicate Collected<T, F, O>(results: seq<Option<O>>, completed: seq<nat>, items: seq<T>, start: T -> F,
                                     output: F -> O)
  {
    && |results| == |items|
    && forall i: nat :: i < |items| && i in completed ==> results[i] == Some(output(start(items[i])))
  }

  /** One turn of the loop, for the future that is ready. */
  method Finish<T, F, O>(items: seq<T>, limit: nat, slot: nat, next: nat, running: seq<(nat, F)>,
                         results: seq<Option<O>>, completed: seq<nat>, start: T -> F, output: F -> O)
    returns (next': nat, running': seq<(nat, F)>, results': seq<Option<O>>, completed': seq<nat>)
    requires slot < |running| && next <= |items| && Futures(running, items, start)
    requires Collected(results, completed, items, start, output)
    ensures next' <= |items| && Futures(running', items, start)
    ensures Collected(results', completed', items, start, output)
    ensures State(next', Indices(running'), completed')
            == Fill(Complete(State(next, Indices(running), completed), slot), |items|, limit)
  {
    var (index, future) := running[slot];
    RemovedIndices(running, slot);
    results' := results[index := Some(output(future))];
    completed' := completed + [index];
    next', running' := StartPending(items, limit, next, SwapRemove(running, slot), start, completed');
  }

  /**
    `bounded`: for every choice of which future finishes next, the outputs are those of the items in
    input order, and the executor went through a whole run with room for `max(limit, 1)`.
   */
  method Bounded<T, F, O>(items: seq<T>, limit: nat, start: T -> F, output: F -> O)
    returns (outputs: seq<O>, completed: seq<nat>, ghost slots: seq<nat>)
    ensures Reaches(|items|, if limit == 0 then 1 else limit, slots, State(|items|, [], completed))
    ensures |outputs| == |items| && forall i :: 0 <= i < |items| ==> outputs[i] == output(start(items[i]))
    ensures |completed| == |items| && PossibleOrder(completed, |items|, if limit == 0 then 1 else limit)
  {
    var n := |items|;
    var room := if limit == 0 then 1 else limit;
    var results: seq<Option<O>> := seq(n, _ => None);
    var next: nat, running: seq<(nat, F)> := 0, [];
    completed := [];
    next, running := StartPending(items, room, next, running, start, completed);
    slots := [];
    ghost var s := State(next, Indices(running), completed);
    EveryRunWaits(n, room, slots, s);
    while running != []
      invariant Reaches(n, room, slots, s) && s == State(next, Indices(running), completed)
      invariant Waiting(s, n, room) && next <= n && Futures(running, items, start)
      invariant Collected(results, completed, items, start, output)
      decreases n - |completed|
    {
      var slot: nat :| slot < |running|;
      WaitingMeans(s, n, room);
      ReachesNext(n, room, slots, s, slot);
      CompleteWaits(s, slot, n, room);
      slots, s := slots + [slot], Fill(Complete(s, slot), n, room);
      next, running, results, completed := Finish(items, room, slot, next, running, results, completed, start, output);
    }
    OrderOfRun(n, room, slots, s);
    AllCompleted(s, n, room);
    outputs := seq(n, i requires 0 <= i < n => assert results[i].Some?; results[i].value);
  }

  lemma RemovedIndices<F>(running: seq<(nat, F)>, slot: nat)
    requires slot < |running|
    ensures Indices(SwapRemove(running, slot)) == SwapRemove(Indices(running), slot)
    ensures Indices(running)[slot] == running[slot].0
  {
  }

  lemma AllCompleted(s: State, n: nat, limit: nat)
    requires Waiting(s, n, limit) && s.running == [] && limit > 0
    ensures |s.finished| == n && forall i: nat :: i < n ==> i in s.finished
  {
    WaitingMeans(s, n, limit);
    forall i: nat | i < n
      ensures i in s.finished
    {
      assert InOnePlace(s, i);
      assert i in multiset(s.finished);
    }
  }
}
