/**
  The mutable strategy state of index.js (`history`, `pendingWhites`,
  `minutePredMap`, `whiteSeq`, index.js:59-62) and `onTick`
  (index.js:85-144) as a class whose phases update the fields step by step.
  `OnTick` is proved to compute exactly `Strategy.Tick` and to keep
  `TickInvariant.Valid`.
*/
module TickEngine {
  import opened Combinations
  import opened PredictionIndex
  import opened Strategy
  import TickInvariant

  class Engine {
    var history: seq<Outcome>
    var pending: seq<PendingWhite>
    var index: Index
    var whiteSeq: int

    /** The fields as a value of `Strategy.State`. */
    function Snapshot(): State
      reads this
    {
      State(history, pending, index, whiteSeq)
    }

    ghost predicate Valid()
      reads this
    {
      TickInvariant.Valid(Snapshot())
    }

    /** The state at start-up: empty history, no pending whites, empty index,
        `whiteSeq = 0`. */
    constructor()
      ensures Snapshot() == Initial
      ensures Valid()
    {
      history := [];
      pending := [];
      index := map[];
      whiteSeq := 0;
      new;
      TickInvariant.InitialValid();
    }

    /** `onTick(roll, color, at)`, with the hour and minute of `at` given. */
    method OnTick(roll: int, color: int, hour: int, minute: int, running: bool) returns (sent: seq<Message>)
      requires Valid()
      modifies this
      ensures var step := Tick(old(Snapshot()), Outcome(roll, color, hour, minute), running);
        Snapshot() == step.state && sent == step.sent
      ensures Valid()
    {
      var o := Outcome(roll, color, hour, minute);
      ghost var s0 := Snapshot();
      RecordOutcome(o);
      CompletePass();
      assert Snapshot() == Absorb(s0, o);
      sent := EmitAlerts(minute, running);
      ghost var mid := Snapshot();
      if roll == 0 {
        whiteSeq := whiteSeq + 1;
        pending := pending + [NewWhite(whiteSeq, o)];
        if running {
          sent := sent + [WhiteDetected(hour, minute)];
        }
      }
      AgeAll();
      EvictOld();
      assert Snapshot() == Settle(mid, o);
      TickInvariant.TickValid(s0, o, running);
    }

    /** `history.unshift(o); if (history.length > HISTORY_MAX) history.pop()`. */
    method RecordOutcome(o: Outcome)
      modifies this
      ensures history == Record(old(history), o)
      ensures pending == old(pending) && index == old(index) && whiteSeq == old(whiteSeq)
    {
      history := [o] + history;
      if |history| > HistoryMax {
        history := history[..|history| - 1];
      }
    }

    /** The window of a white at position `idx`: the rolls two and one before
        it when they exist, then the two after it. */
    method WindowAt(idx: int) returns (win: seq<int>)
      requires Has(history, idx - 1) && Has(history, idx - 2)
      ensures win == Window(history, idx)
    {
      win := [];
      if Has(history, idx + 2) {
        win := win + [history[idx + 2].roll];
      }
      if Has(history, idx + 1) {
        win := win + [history[idx + 1].roll];
      }
      win := win + [history[idx - 1].roll, history[idx - 2].roll];
    }

    /** The completion pass over the pending whites (index.js:91-107). */
    method CompletePass()
      modifies this
      ensures pending == CompleteAll(history, old(pending))
      ensures index == CompletionIndex(history, old(pending), old(index))
      ensures history == old(history) && whiteSeq == old(whiteSeq)
    {
      ghost var ps0, ix0 := pending, index;
      var i := 0;
      while i < |pending|
        invariant 0 <= i <= |pending| == |ps0|
        invariant forall k :: 0 <= k < i ==> pending[k] == CompleteOne(history, ps0[k])
        invariant forall k :: i <= k < |ps0| ==> pending[k] == ps0[k]
        invariant index == CompletionIndex(history, ps0[..i], ix0)
        invariant history == old(history) && whiteSeq == old(whiteSeq)
      {
        CompletionIndexStep(history, ps0, i, ix0);
        CompleteAt(i);
        i := i + 1;
      }
      assert ps0[..i] == ps0;
    }

    /** One iteration of the completion pass: complete white `i` when both
        outcomes after it exist, and record its predictions. */
    method CompleteAt(i: int)
      requires 0 <= i < |pending|
      modifies this
      ensures pending == old(pending)[i := CompleteOne(history, old(pending)[i])]
      ensures index == if Completes(history, old(pending)[i])
        then AddPreds(old(index), old(pending)[i].id, CompleteOne(history, old(pending)[i]).pred)
        else old(index)
      ensures history == old(history) && whiteSeq == old(whiteSeq)
    {
      var w := pending[i];
      if !w.completed && Has(history, w.idx - 1) && Has(history, w.idx - 2) {
        var win := WindowAt(w.idx);
        var pred := CombosFromFour(w.minute, win);
        pending := pending[i := w.(completed := true, pred := pred)];
        AddAll(w.id, pred);
      }
    }

    /** `for (const p of w.pred) minutePredMap.get(p.minute).add(w.id)`,
        creating the bucket first when needed. */
    method AddAll(id: int, pred: seq<Combo>)
      modifies this
      ensures index == AddPreds(old(index), id, pred)
      ensures history == old(history) && pending == old(pending) && whiteSeq == old(whiteSeq)
    {
      ghost var ix0 := index;
      var j := 0;
      while j < |pred|
        invariant 0 <= j <= |pred|
        invariant index == AddPreds(ix0, id, pred[..j])
        invariant history == old(history) && pending == old(pending) && whiteSeq == old(whiteSeq)
      {
        var m := pred[j].minute;
        ghost var before := index;
        if m !in index {
          index := index[m := {}];
          assert index[m] + {id} == {id};
        }
        index := index[m := index[m] + {id}];
        assert m !in before ==> index == before[m := {id}];
        assert pred[..j + 1][..j] == pred[..j];
        j := j + 1;
      }
      assert pred[..j] == pred;
    }

    /** The alert pass (index.js:110-126): the signals of the completed whites
        with a prediction for minute `m`, sent only while running. */
    method EmitAlerts(m: int, running: bool) returns (sent: seq<Message>)
      ensures sent == if running then Alerts(pending, m, index) else []
    {
      sent := [];
      var i := 0;
      while i < |pending|
        invariant 0 <= i <= |pending|
        invariant sent == if running then Alerts(pending[..i], m, index) else []
      {
        var w := pending[i];
        assert pending[..i + 1][..i] == pending[..i];
        if w.completed {
          var hits := Hits(w.pred, m);
          if |hits| > 0 {
            var dist := w.idx;
            var signal := Signal(w.hour, w.minute, FirstLabels(hits), m, dist, StrengthOf(dist, m, index));
            if running {
              sent := sent + [signal];
            }
          }
        }
        i := i + 1;
      }
      assert pending[..i] == pending;
    }

    /** `for (const w of pendingWhites) w.idx++`. */
    method AgeAll()
      modifies this
      ensures pending == Aged(old(pending))
      ensures history == old(history) && index == old(index) && whiteSeq == old(whiteSeq)
    {
      var i := 0;
      while i < |pending|
        invariant 0 <= i <= |pending| == |old(pending)|
        invariant forall k :: 0 <= k < i ==> pending[k] == old(pending)[k].(idx := old(pending)[k].idx + 1)
        invariant forall k :: i <= k < |pending| ==> pending[k] == old(pending)[k]
        invariant history == old(history) && index == old(index) && whiteSeq == old(whiteSeq)
      {
        pending := pending[i := pending[i].(idx := pending[i].idx + 1)];
        i := i + 1;
      }
    }

    /** Shift whites older than `EvictAfter` off the front, deleting their
        ids from the index (index.js:137-143). */
    method EvictOld()
      modifies this
      ensures (pending, index) == Evict(old(pending), old(index))
      ensures history == old(history) && whiteSeq == old(whiteSeq)
    {
      while pending != [] && pending[0].idx > EvictAfter
        invariant Evict(pending, index) == Evict(old(pending), old(index))
        invariant history == old(history) && whiteSeq == old(whiteSeq)
        decreases |pending|
      {
        var gone := pending[0];
        pending := pending[1..];
        RemoveAll(gone.id, gone.pred);
      }
    }

    /** `set.delete(old.id); if (!set.size) minutePredMap.delete(p.minute)`
        for every prediction of an evicted white. */
    method RemoveAll(id: int, pred: seq<Combo>)
      modifies this
      ensures index == RemovePreds(old(index), id, pred)
      ensures history == old(history) && pending == old(pending) && whiteSeq == old(whiteSeq)
    {
      ghost var ix0 := index;
      var j := 0;
      while j < |pred|
        invariant 0 <= j <= |pred|
        invariant index == RemovePreds(ix0, id, pred[..j])
        invariant history == old(history) && pending == old(pending) && whiteSeq == old(whiteSeq)
      {
        index := RemoveId(index, pred[j].minute, id);
        assert pred[..j + 1][..j] == pred[..j];
        j := j + 1;
      }
      assert pred[..j] == pred;
    }
  }

  /** One more white of the completion pass adds its predictions to the
      index exactly when it completes. */
  lemma CompletionIndexStep(h: seq<Outcome>, ps: seq<PendingWhite>, i: int, index: Index)
    requires 0 <= i < |ps|
    ensures CompletionIndex(h, ps[..i + 1], index) ==
      if Completes(h, ps[i]) then AddPreds(CompletionIndex(h, ps[..i], index), ps[i].id, CompleteOne(h, ps[i]).pred)
      else CompletionIndex(h, ps[..i], index)
  {
    assert ps[..i + 1][..i] == ps[..i];
  }
}
