/**
  What `onTick` keeps true between ticks, and what each of its phases
  promises. The invariant `Valid` says that the history holds at most 400
  outcomes; that every pending white is 1 to 200 positions old and sits on a
  zero roll with its own hour and minute; that whites are listed oldest
  first with increasing ids drawn from `whiteSeq`; that a white is completed
  exactly when it is at least 3 positions old; and that the prediction index
  maps each minute to exactly the whites with a prediction for it.
*/
module TickInvariant {
  import opened Combinations
  import opened PredictionIndex
  import opened Strategy

  /** Every white sits on a zero roll at history position `idx - lag`, with
      its hour and minute, and `lo <= idx <= hi`. */
  predicate WhitesAt(h: seq<Outcome>, ps: seq<PendingWhite>, lag: int, lo: int, hi: int)
  {
    forall k :: 0 <= k < |ps| ==>
      && lo <= ps[k].idx <= hi
      && Has(h, ps[k].idx - lag)
      && h[ps[k].idx - lag].roll == 0
      && h[ps[k].idx - lag].hour == ps[k].hour
      && h[ps[k].idx - lag].minute == ps[k].minute
  }

  /** Whites at least `th` positions old are completed; the others hold no
      predictions. */
  predicate Done(ps: seq<PendingWhite>, th: int)
  {
    forall k :: 0 <= k < |ps| ==>
      (ps[k].completed <==> ps[k].idx >= th) && (!ps[k].completed ==> ps[k].pred == [])
  }

  /** Ids increase along the list and were all handed out by `whiteSeq`. */
  predicate IdsFrom(ps: seq<PendingWhite>, whiteSeq: int)
  {
    && (forall j, k :: 0 <= j < k < |ps| ==> ps[j].id < ps[k].id)
    && (forall k :: 0 <= k < |ps| ==> 1 <= ps[k].id <= whiteSeq)
  }

  /** Older whites come first. */
  predicate Descending(ps: seq<PendingWhite>)
  {
    forall j, k :: 0 <= j < k < |ps| ==> ps[j].idx > ps[k].idx
  }

  /** Some pending white with id `x` has a prediction for minute `m`. */
  predicate Predicts(ps: seq<PendingWhite>, m: int, x: int)
  {
    exists k :: 0 <= k < |ps| && ps[k].id == x && m in Targets(ps[k].pred)
  }

  /** The index records exactly the predictions of the pending whites. */
  ghost predicate IndexMatches(index: Index, ps: seq<PendingWhite>)
  {
    NoEmpty(index) && forall m, x :: InIndex(index, m, x) <==> Predicts(ps, m, x)
  }

  ghost predicate Valid(s: State)
  {
    && |s.history| <= HistoryMax
    && s.whiteSeq >= 0
    && WhitesAt(s.history, s.pending, 1, 1, EvictAfter)
    && Done(s.pending, 3)
    && IdsFrom(s.pending, s.whiteSeq)
    && Descending(s.pending)
    && IndexMatches(s.index, s.pending)
  }

  lemma InitialValid()
    ensures Valid(Initial)
  {
  }

  // ---------------------------------------------------------------------------
  // Phase by phase.

  /** After `unshift`, each white sits at its own `idx`; the cap of 400 never
      drops a pending white, which is at most 200 positions old. */
  lemma RecordShape(h: seq<Outcome>, ps: seq<PendingWhite>, o: Outcome)
    requires |h| <= HistoryMax && WhitesAt(h, ps, 1, 1, EvictAfter)
    ensures |Record(h, o)| <= HistoryMax
    ensures WhitesAt(Record(h, o), ps, 0, 1, EvictAfter)
  {
    var r := Record(h, o);
    forall k | 0 <= k < |ps|
      ensures Has(r, ps[k].idx) && r[ps[k].idx] == h[ps[k].idx - 1]
    {
    }
  }

  /** A pending white's window is completed exactly two outcomes after it,
      when it is at position 2. */
  lemma CompletesAtTwo(h: seq<Outcome>, ps: seq<PendingWhite>, k: int)
    requires WhitesAt(h, ps, 0, 1, EvictAfter) && Done(ps, 3) && 0 <= k < |ps|
    ensures Completes(h, ps[k]) <==> ps[k].idx == 2
  {
  }

  /** The window completed at position 2 holds the two outcomes before the
      white and the two after it, oldest first, without those the history
      does not reach. */
  lemma WindowAtTwo(h: seq<Outcome>)
    requires |h| >= 3
    ensures |h| >= 5 ==> Window(h, 2) == [h[4].roll, h[3].roll, h[1].roll, h[0].roll]
    ensures |h| == 4 ==> Window(h, 2) == [h[3].roll, h[1].roll, h[0].roll]
    ensures |h| == 3 ==> Window(h, 2) == [h[1].roll, h[0].roll]
  {
  }

  lemma CompleteShape(h: seq<Outcome>, ps: seq<PendingWhite>, ws: int)
    requires WhitesAt(h, ps, 0, 1, EvictAfter) && Done(ps, 3) && IdsFrom(ps, ws) && Descending(ps)
    ensures var ps1 := CompleteAll(h, ps);
      WhitesAt(h, ps1, 0, 1, EvictAfter) && Done(ps1, 2) && IdsFrom(ps1, ws) && Descending(ps1)
  {
    var ps1 := CompleteAll(h, ps);
    forall k | 0 <= k < |ps|
      ensures ps1[k].id == ps[k].id && ps1[k].idx == ps[k].idx
      ensures ps1[k].hour == ps[k].hour && ps1[k].minute == ps[k].minute
      ensures ps1[k].completed <==> ps[k].idx >= 2
      ensures !ps1[k].completed ==> ps1[k].pred == []
    {
      CompletesAtTwo(h, ps, k);
    }
  }

  /** The completion pass completes `w`, which has id `x` and then a
      prediction for `m`. */
  predicate Contributes(h: seq<Outcome>, w: PendingWhite, m: int, x: int)
  {
    Completes(h, w) && w.id == x && m in Targets(CompleteOne(h, w).pred)
  }

  function ContributesTo(h: seq<Outcome>, m: int, x: int): PendingWhite -> bool
  {
    w => Contributes(h, w, m, x)
  }

  /** Some white of `ps` satisfies `P`. */
  predicate AnyOf(ps: seq<PendingWhite>, P: PendingWhite -> bool)
  {
    exists k :: 0 <= k < |ps| && P(ps[k])
  }

  lemma AnyOfSnoc(ps: seq<PendingWhite>, P: PendingWhite -> bool)
    requires ps != []
    ensures AnyOf(ps, P) <==> AnyOf(ps[..|ps| - 1], P) || P(ps[|ps| - 1])
  {
    var init := ps[..|ps| - 1];
    if AnyOf(ps, P) {
      var k :| 0 <= k < |ps| && P(ps[k]);
      if k < |init| {
        assert init[k] == ps[k];
      }
    }
    if AnyOf(init, P) {
      var k :| 0 <= k < |init| && P(init[k]);
      assert ps[k] == init[k];
    }
  }

  /** Some white of `ps` contributes (m, x). */
  predicate NewlyPredicts(h: seq<Outcome>, ps: seq<PendingWhite>, m: int, x: int)
  {
    AnyOf(ps, ContributesTo(h, m, x))
  }

  /** The completion pass adds to the index exactly the predictions of the
      whites it completes, and keeps every bucket non-empty. */
  lemma {:induction false} CompletionIndexSpec(h: seq<Outcome>, ps: seq<PendingWhite>, index: Index)
    ensures forall m, x :: InIndex(CompletionIndex(h, ps, index), m, x) <==>
      InIndex(index, m, x) || NewlyPredicts(h, ps, m, x)
    ensures NoEmpty(index) ==> NoEmpty(CompletionIndex(h, ps, index))
  {
    if ps != [] {
      var init := ps[..|ps| - 1];
      var w := ps[|ps| - 1];
      CompletionIndexSpec(h, init, index);
      var before := CompletionIndex(h, init, index);
      if Completes(h, w) {
        AddPredsSpec(before, w.id, CompleteOne(h, w).pred);
      }
      forall m, x ensures InIndex(CompletionIndex(h, ps, index), m, x) <==> InIndex(index, m, x) || NewlyPredicts(h, ps, m, x) {
        AnyOfSnoc(ps, ContributesTo(h, m, x));
      }
    }
  }

  lemma CompletionMatches(h: seq<Outcome>, ps: seq<PendingWhite>, index: Index)
    requires Done(ps, 3) && IndexMatches(index, ps)
    ensures IndexMatches(CompletionIndex(h, ps, index), CompleteAll(h, ps))
  {
    var ps1 := CompleteAll(h, ps);
    CompletionIndexSpec(h, ps, index);
    forall m, x ensures Predicts(ps1, m, x) <==> Predicts(ps, m, x) || NewlyPredicts(h, ps, m, x) {
      if Predicts(ps1, m, x) {
        var k :| 0 <= k < |ps1| && ps1[k].id == x && m in Targets(ps1[k].pred);
        if Completes(h, ps[k]) {
          assert ContributesTo(h, m, x)(ps[k]);
        } else {
          assert Predicts(ps, m, x);
        }
      }
      if Predicts(ps, m, x) {
        var k :| 0 <= k < |ps| && ps[k].id == x && m in Targets(ps[k].pred);
        assert ps[k].pred != [];
        assert ps1[k] == ps[k];
      }
      if NewlyPredicts(h, ps, m, x) {
        var k :| 0 <= k < |ps| && ContributesTo(h, m, x)(ps[k]);
        assert ps1[k] == CompleteOne(h, ps[k]);
      }
    }
  }

  /** A newly detected white joins at the end of the list, at position 0,
      with the next id and no predictions. */
  lemma NewWhiteShape(h: seq<Outcome>, ps: seq<PendingWhite>, ws: int, o: Outcome)
    requires WhitesAt(h, ps, 0, 1, EvictAfter) && Done(ps, 2) && IdsFrom(ps, ws) && Descending(ps)
    requires ws >= 0 && h != [] && h[0] == o && o.roll == 0
    ensures var ps2 := ps + [NewWhite(ws + 1, o)];
      WhitesAt(h, ps2, 0, 0, EvictAfter) && Done(ps2, 2) && IdsFrom(ps2, ws + 1) && Descending(ps2)
  {
    var ps2 := ps + [NewWhite(ws + 1, o)];
    assert forall k :: 0 <= k < |ps| ==> ps2[k] == ps[k];
  }

  /** The new white holds no predictions, so the index stays exact. */
  lemma NewWhiteMatches(ps: seq<PendingWhite>, index: Index, w: PendingWhite)
    requires IndexMatches(index, ps) && w.pred == []
    ensures IndexMatches(index, ps + [w])
  {
    var ps2 := ps + [w];
    assert Targets([]) == {};
    forall m, x ensures Predicts(ps2, m, x) <==> Predicts(ps, m, x) {
      if Predicts(ps2, m, x) {
        var k :| 0 <= k < |ps2| && ps2[k].id == x && m in Targets(ps2[k].pred);
        assert k < |ps|;
        assert ps[k] == ps2[k];
      }
      if Predicts(ps, m, x) {
        var k :| 0 <= k < |ps| && ps[k].id == x && m in Targets(ps[k].pred);
        assert ps2[k] == ps[k];
      }
    }
  }

  lemma WhitesAtWeaker(h: seq<Outcome>, ps: seq<PendingWhite>, lag: int, lo: int, hi: int, lo': int)
    requires WhitesAt(h, ps, lag, lo, hi) && lo' <= lo
    ensures WhitesAt(h, ps, lag, lo', hi)
  {
  }

  /** Ageing moves every white one position back and changes nothing else
      the invariant looks at. */
  lemma AgedShape(h: seq<Outcome>, ps: seq<PendingWhite>, index: Index, ws: int)
    requires WhitesAt(h, ps, 0, 0, EvictAfter) && Done(ps, 2) && IdsFrom(ps, ws) && Descending(ps)
    requires IndexMatches(index, ps)
    ensures var ps3 := Aged(ps);
      && WhitesAt(h, ps3, 1, 1, EvictAfter + 1) && Done(ps3, 3) && IdsFrom(ps3, ws) && Descending(ps3)
      && IndexMatches(index, ps3)
  {
    var ps3 := Aged(ps);
    forall m, x ensures Predicts(ps3, m, x) <==> Predicts(ps, m, x) {
      if Predicts(ps3, m, x) {
        var k :| 0 <= k < |ps3| && ps3[k].id == x && m in Targets(ps3[k].pred);
        assert ps[k].id == x && ps[k].pred == ps3[k].pred;
      }
      if Predicts(ps, m, x) {
        var k :| 0 <= k < |ps| && ps[k].id == x && m in Targets(ps[k].pred);
        assert ps3[k].id == x && ps3[k].pred == ps[k].pred;
      }
    }
  }

  /** Dropping the oldest white and its ids keeps the index exact, because
      no other pending white shares its id. */
  lemma DropFirstMatches(ps: seq<PendingWhite>, index: Index, ws: int)
    requires ps != [] && IdsFrom(ps, ws) && IndexMatches(index, ps)
    ensures IndexMatches(RemovePreds(index, ps[0].id, ps[0].pred), ps[1..])
  {
    var w := ps[0];
    var rest := ps[1..];
    RemovePredsSpec(index, w.id, w.pred);
    forall m, x ensures Predicts(ps, m, x) <==> (x == w.id && m in Targets(w.pred)) || Predicts(rest, m, x) {
      if Predicts(ps, m, x) {
        var k :| 0 <= k < |ps| && ps[k].id == x && m in Targets(ps[k].pred);
        if k > 0 {
          assert rest[k - 1] == ps[k];
        }
      }
      if Predicts(rest, m, x) {
        var k :| 0 <= k < |rest| && rest[k].id == x && m in Targets(rest[k].pred);
        assert ps[k + 1] == rest[k];
      }
    }
    forall m, x | Predicts(rest, m, x) ensures x != w.id {
      var k :| 0 <= k < |rest| && rest[k].id == x && m in Targets(rest[k].pred);
      assert ps[k + 1] == rest[k];
    }
  }

  /** Eviction drops exactly the whites more than 200 positions old and their
      predictions from the index, and keeps the rest of the invariant. */
  lemma {:induction false} EvictSpec(h: seq<Outcome>, ps: seq<PendingWhite>, index: Index, ws: int)
    requires WhitesAt(h, ps, 1, 1, EvictAfter + 1) && Done(ps, 3) && IdsFrom(ps, ws) && Descending(ps)
    requires IndexMatches(index, ps)
    ensures var r := Evict(ps, index);
      && (forall w :: w in r.0 <==> w in ps && w.idx <= EvictAfter)
      && WhitesAt(h, r.0, 1, 1, EvictAfter) && Done(r.0, 3) && IdsFrom(r.0, ws) && Descending(r.0)
      && IndexMatches(r.1, r.0)
    decreases |ps|
  {
    if ps != [] && ps[0].idx > EvictAfter {
      var rest := ps[1..];
      DropFirstMatches(ps, index, ws);
      assert forall k :: 0 <= k < |rest| ==> rest[k] == ps[k + 1];
      EvictSpec(h, rest, RemovePreds(index, ps[0].id, ps[0].pred), ws);
      forall w ensures w in ps && w.idx <= EvictAfter <==> w in rest && w.idx <= EvictAfter {
        if w in ps && w.idx <= EvictAfter {
          var k :| 0 <= k < |ps| && ps[k] == w;
          assert k != 0;
          assert w == rest[k - 1];
        }
      }
    } else {
      forall k | 0 <= k < |ps| ensures ps[k].idx <= EvictAfter {
        if k > 0 {
          assert ps[0].idx > ps[k].idx;
        }
      }
    }
  }

  // ---------------------------------------------------------------------------
  // One tick.

  /** What holds between the two halves of a tick. */
  ghost predicate Mid(s: State, o: Outcome)
  {
    && |s.history| <= HistoryMax
    && s.whiteSeq >= 0
    && s.history != [] && s.history[0] == o
    && WhitesAt(s.history, s.pending, 0, 1, EvictAfter)
    && Done(s.pending, 2)
    && IdsFrom(s.pending, s.whiteSeq)
    && Descending(s.pending)
    && IndexMatches(s.index, s.pending)
  }

  lemma AbsorbValid(s: State, o: Outcome)
    requires Valid(s)
    ensures Mid(Absorb(s, o), o)
  {
    var h := Record(s.history, o);
    RecordShape(s.history, s.pending, o);
    CompleteShape(h, s.pending, s.whiteSeq);
    CompletionMatches(h, s.pending, s.index);
  }

  /** What holds just before ageing. */
  ghost predicate PreAge(s: State)
  {
    && |s.history| <= HistoryMax
    && s.whiteSeq >= 0
    && WhitesAt(s.history, s.pending, 0, 0, EvictAfter)
    && Done(s.pending, 2)
    && IdsFrom(s.pending, s.whiteSeq)
    && Descending(s.pending)
    && IndexMatches(s.index, s.pending)
  }

  /** Ageing then eviction restore the invariant. */
  lemma AgeEvictValid(s: State)
    requires PreAge(s)
    ensures Valid(AgeEvict(s))
  {
    AgedShape(s.history, s.pending, s.index, s.whiteSeq);
    EvictSpec(s.history, Aged(s.pending), s.index, s.whiteSeq);
  }

  /** Registering a white on a zero roll leads to the state before ageing. */
  lemma RegisterPreAge(s: State, o: Outcome)
    requires Mid(s, o) && o.roll == 0
    ensures PreAge(Register(s, o))
  {
    var w := NewWhite(s.whiteSeq + 1, o);
    var r := Register(s, o);
    assert r.history == s.history && r.pending == s.pending + [w];
    assert r.index == s.index && r.whiteSeq == s.whiteSeq + 1;
    NewWhiteShape(s.history, s.pending, s.whiteSeq, o);
    NewWhiteMatches(s.pending, s.index, w);
  }

  /** Without a white, the state between the halves is already ready for
      ageing. */
  lemma QuietPreAge(s: State, o: Outcome)
    requires Mid(s, o)
    ensures PreAge(s)
  {
    WhitesAtWeaker(s.history, s.pending, 0, 1, EvictAfter, 0);
  }

  lemma SettleValid(s: State, o: Outcome)
    requires Mid(s, o)
    ensures Valid(Settle(s, o))
  {
    if o.roll == 0 {
      RegisterPreAge(s, o);
      AgeEvictValid(Register(s, o));
    } else {
      QuietPreAge(s, o);
      AgeEvictValid(s);
    }
  }

  /** `onTick` keeps the invariant. */
  lemma TickValid(s: State, o: Outcome, running: bool)
    requires Valid(s)
    ensures Valid(Tick(s, o, running).state)
  {
    AbsorbValid(s, o);
    SettleValid(Absorb(s, o), o);
  }
}
