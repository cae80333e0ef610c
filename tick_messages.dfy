/**
  What `onTick` sends and how it numbers new white events: the signals of
  one tick are exactly the completed pending whites with a prediction for
  the current minute, in list order; none comes from the white detected in
  the same tick; nothing is sent while the bot is stopped; and the strength
  of a signal is "very strong" exactly when two different pending whites
  predict its minute.
*/
module TickMessages {
  import opened Combinations
  import opened PredictionIndex
  import opened Strategy
  import opened TickInvariant

  /** White `w` fires for minute `m` and `e` is its signal. */
  predicate Emits(w: PendingWhite, m: int, index: Index, e: Message)
  {
    Fires(w, m) && e == SignalFor(w, m, index)
  }

  /** Some white of `ps` fires for minute `m` with signal `e`. */
  predicate EmittedBy(ps: seq<PendingWhite>, m: int, index: Index, e: Message)
  {
    exists k :: 0 <= k < |ps| && Emits(ps[k], m, index, e)
  }

  /** The alert pass emits the signal of every firing white and nothing
      else; `AlertsOrdered` adds that each comes once, in list order. */
  lemma {:induction false} AlertsSpec(ps: seq<PendingWhite>, m: int, index: Index)
    ensures forall e :: e in Alerts(ps, m, index) <==> EmittedBy(ps, m, index, e)
    ensures |Alerts(ps, m, index)| <= |ps|
  {
    if ps != [] {
      var init := ps[..|ps| - 1];
      AlertsSpec(init, m, index);
      AlertsLast(ps, m, index);
      forall e ensures EmittedBy(ps, m, index, e) <==> EmittedBy(init, m, index, e) || Emits(ps[|ps| - 1], m, index, e) {
        EmitsSnoc(ps, init, m, index, e);
      }
    }
  }

  /** The last white contributes its signal, if any, after the others. */
  lemma AlertsLast(ps: seq<PendingWhite>, m: int, index: Index)
    requires ps != []
    ensures forall e :: e in Alerts(ps, m, index) <==>
      e in Alerts(ps[..|ps| - 1], m, index) || Emits(ps[|ps| - 1], m, index, e)
  {
  }

  lemma EmitsSnoc(ps: seq<PendingWhite>, init: seq<PendingWhite>, m: int, index: Index, e: Message)
    requires ps != [] && init == ps[..|ps| - 1]
    ensures EmittedBy(ps, m, index, e) <==> EmittedBy(init, m, index, e) || Emits(ps[|ps| - 1], m, index, e)
  {
    if exists k :: 0 <= k < |ps| && Emits(ps[k], m, index, e) {
      var k :| 0 <= k < |ps| && Emits(ps[k], m, index, e);
      if k < |init| {
        assert init[k] == ps[k];
      }
    }
    if exists k :: 0 <= k < |init| && Emits(init[k], m, index, e) {
      var k :| 0 <= k < |init| && Emits(init[k], m, index, e);
      assert ps[k] == init[k];
    }
  }

  /** When every white of `ps` is older than `d`, every signal of the pass
      reports a distance above `d`. */
  lemma AlertsAbove(ps: seq<PendingWhite>, m: int, index: Index, d: int)
    requires forall k :: 0 <= k < |ps| ==> ps[k].idx > d
    ensures forall e :: e in Alerts(ps, m, index) ==> e.Signal? && e.distance > d
  {
    AlertsSpec(ps, m, index);
    forall e | e in Alerts(ps, m, index) ensures e.Signal? && e.distance > d {
      var k :| 0 <= k < |ps| && Emits(ps[k], m, index, e);
    }
  }

  /** With the whites listed oldest first, the signals of a pass report
      strictly decreasing distances: they come out in list order and no
      white contributes twice. */
  lemma {:induction false} AlertsOrdered(ps: seq<PendingWhite>, m: int, index: Index)
    requires Descending(ps)
    ensures forall i :: 0 <= i < |Alerts(ps, m, index)| ==> Alerts(ps, m, index)[i].Signal?
    ensures forall i, j :: 0 <= i < j < |Alerts(ps, m, index)| ==>
      Alerts(ps, m, index)[i].distance > Alerts(ps, m, index)[j].distance
  {
    if ps != [] {
      var init := ps[..|ps| - 1];
      var w := ps[|ps| - 1];
      assert Descending(init) by {
        forall j, k | 0 <= j < k < |init| ensures init[j].idx > init[k].idx {
          assert init[j] == ps[j] && init[k] == ps[k];
        }
      }
      AlertsOrdered(init, m, index);
      forall k | 0 <= k < |init| ensures init[k].idx > w.idx {
        assert init[k] == ps[k];
      }
      AlertsAbove(init, m, index, w.idx);
      var before := Alerts(init, m, index);
      var a := Alerts(ps, m, index);
      assert a == before + (if Fires(w, m) then [SignalFor(w, m, index)] else []);
      forall i, j | 0 <= i < j < |a| ensures a[i].distance > a[j].distance {
        if j < |before| {
          assert a[i] == before[i] && a[j] == before[j];
        } else {
          assert a[i] == before[i] && before[i] in before;
        }
      }
    }
  }

  /** Every signal of a pass names the current minute as its target, carries
      between one and six labels, and reports the position of a completed
      white as its distance. */
  lemma AlertBounds(ps: seq<PendingWhite>, m: int, index: Index)
    requires forall k :: 0 <= k < |ps| && ps[k].completed ==> 2 <= ps[k].idx <= EvictAfter
    ensures forall e :: e in Alerts(ps, m, index) ==>
      && e.Signal? && e.target == m && 1 <= |e.labels| <= 6 && 2 <= e.distance <= EvictAfter
  {
    AlertsSpec(ps, m, index);
    forall e | e in Alerts(ps, m, index)
      ensures e.Signal? && e.target == m && 1 <= |e.labels| <= 6 && 2 <= e.distance <= EvictAfter
    {
      var k :| 0 <= k < |ps| && Emits(ps[k], m, index, e);
      assert |Hits(ps[k].pred, m)| >= 1;
    }
  }

  /** Between the two halves of a tick, a completed white is 2 to 200
      positions old. */
  lemma MidCompletedAge(s: State, o: Outcome)
    requires Mid(s, o)
    ensures forall k :: 0 <= k < |s.pending| && s.pending[k].completed ==> 2 <= s.pending[k].idx <= EvictAfter
  {
  }

  /** The messages of one tick: nothing while stopped; otherwise the signals
      (each aimed at the current minute, with one to six labels and a
      distance of at least 2, so never for the white of this tick) followed
      by the white notice exactly when the roll is 0. */
  lemma TickSent(s: State, o: Outcome, running: bool)
    requires Valid(s)
    ensures var sent := Tick(s, o, running).sent;
      && (!running ==> sent == [])
      && (running ==> (WhiteDetected(o.hour, o.minute) in sent <==> o.roll == 0))
      && (running && o.roll == 0 ==> sent[|sent| - 1] == WhiteDetected(o.hour, o.minute))
      && (forall e :: e in sent && e.Signal? ==>
            e.target == o.minute && 1 <= |e.labels| <= 6 && 2 <= e.distance <= EvictAfter)
  {
    var mid := Absorb(s, o);
    AbsorbValid(s, o);
    MidCompletedAge(mid, o);
    AlertBounds(mid.pending, o.minute, mid.index);
  }

  /** The signals of one tick come first, oldest white first, with strictly
      decreasing distances, so each firing white is announced once. */
  lemma TickSignalsOrdered(s: State, o: Outcome, running: bool)
    requires Valid(s)
    ensures var sent := Tick(s, o, running).sent;
      forall i, j :: 0 <= i < j < |sent| && sent[j].Signal? ==>
        sent[i].Signal? && sent[i].distance > sent[j].distance
  {
    var mid := Absorb(s, o);
    AbsorbValid(s, o);
    var alerts := Alerts(mid.pending, o.minute, mid.index);
    AlertsOrdered(mid.pending, o.minute, mid.index);
    var sent := Tick(s, o, running).sent;
    if running {
      var notice := if o.roll == 0 then [WhiteDetected(o.hour, o.minute)] else [];
      assert sent == alerts + notice;
      forall i, j | 0 <= i < j < |sent| && sent[j].Signal?
        ensures sent[i].Signal? && sent[i].distance > sent[j].distance
      {
        assert j < |alerts|;
        assert sent[i] == alerts[i] && sent[j] == alerts[j];
      }
    }
  }

  /** Eviction only removes whites more than `EvictAfter` positions old. */
  lemma {:induction false} EvictKeepsYoung(ps: seq<PendingWhite>, index: Index, w: PendingWhite)
    ensures w in Evict(ps, index).0 ==> w in ps
    ensures w in ps && w.idx <= EvictAfter ==> w in Evict(ps, index).0
    decreases |ps|
  {
    if ps != [] && ps[0].idx > EvictAfter {
      EvictKeepsYoung(ps[1..], RemovePreds(index, ps[0].id, ps[0].pred), w);
      if w in ps && w != ps[0] {
        var k :| 0 <= k < |ps| && ps[k] == w;
        assert ps[1..][k - 1] == w;
      }
    }
  }

  /** `whiteSeq` moves exactly on a zero roll, and the white registered then
      is pending after the tick, one position old, with the new id and no
      predictions. */
  lemma TickNumbering(s: State, o: Outcome, running: bool)
    ensures var t := Tick(s, o, running).state;
      && t.whiteSeq == (if o.roll == 0 then s.whiteSeq + 1 else s.whiteSeq)
      && (o.roll == 0 ==> PendingWhite(s.whiteSeq + 1, 1, o.hour, o.minute, false, []) in t.pending)
  {
    var mid := Absorb(s, o);
    if o.roll == 0 {
      var ps := mid.pending + [NewWhite(s.whiteSeq + 1, o)];
      var aged := Aged(ps);
      assert aged[|ps| - 1] == PendingWhite(s.whiteSeq + 1, 1, o.hour, o.minute, false, []);
      EvictKeepsYoung(aged, mid.index, aged[|ps| - 1]);
    }
  }

  /** With distinct ids and an exact index, a signal is "very strong" exactly
      when two different pending whites have a prediction for its minute. */
  lemma StrengthMeaning(ps: seq<PendingWhite>, index: Index, ws: int, distance: int, m: int)
    requires IdsFrom(ps, ws) && IndexMatches(index, ps)
    ensures StrengthOf(distance, m, index) == VeryStrong <==>
      exists j, k :: 0 <= j < k < |ps| && m in Targets(ps[j].pred) && m in Targets(ps[k].pred)
  {
    if StrengthOf(distance, m, index) == VeryStrong {
      var a, b := TwoOf(index[m]);
      assert InIndex(index, m, a) && InIndex(index, m, b);
      var ka :| 0 <= ka < |ps| && ps[ka].id == a && m in Targets(ps[ka].pred);
      var kb :| 0 <= kb < |ps| && ps[kb].id == b && m in Targets(ps[kb].pred);
      if ka < kb {
        assert 0 <= ka < kb < |ps| && m in Targets(ps[ka].pred) && m in Targets(ps[kb].pred);
      } else {
        assert 0 <= kb < ka < |ps| && m in Targets(ps[kb].pred) && m in Targets(ps[ka].pred);
      }
    }
    if exists j, k :: 0 <= j < k < |ps| && m in Targets(ps[j].pred) && m in Targets(ps[k].pred) {
      var j, k :| 0 <= j < k < |ps| && m in Targets(ps[j].pred) && m in Targets(ps[k].pred);
      assert Predicts(ps, m, ps[j].id) && Predicts(ps, m, ps[k].id);
      assert InIndex(index, m, ps[j].id) && InIndex(index, m, ps[k].id);
      PairCard(index[m], ps[j].id, ps[k].id);
    }
  }

  /** The strength a signal of a tick reports: "very strong" exactly when two
      different pending whites, after the completion pass of that tick,
      predict the current minute. */
  lemma TickStrength(s: State, o: Outcome, w: PendingWhite)
    requires Valid(s)
    ensures var mid := Absorb(s, o);
      StrengthOf(w.idx, o.minute, mid.index) == VeryStrong <==>
        exists j, k :: 0 <= j < k < |mid.pending| && o.minute in Targets(mid.pending[j].pred)
          && o.minute in Targets(mid.pending[k].pred)
  {
    var mid := Absorb(s, o);
    AbsorbValid(s, o);
    StrengthMeaning(mid.pending, mid.index, mid.whiteSeq, w.idx, o.minute);
  }
}
