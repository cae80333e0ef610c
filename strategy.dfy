/**
  The white-event strategy of index.js (`onTick`, index.js:85-144) as a pure
  state machine. Each tick records the outcome, completes the context window
  of every pending white event two outcomes after it, announces the pending
  whites whose predictions hit the current minute, registers a new white when
  the roll is 0, ages every pending white by one position and evicts those
  more than 200 positions old.

  The imperative engine in engine.dfy is proved to compute exactly `Tick`.
*/
module Strategy {
  import opened Combinations
  import opened PredictionIndex

  /** `HISTORY_MAX` (index.js:58). */
  const HistoryMax: int := 400

  /** A pending white is dropped once its position exceeds this (index.js:137). */
  const EvictAfter: int := 200

  /** One outcome of the game: the roll, its colour, and the wall-clock hour and
      minute of its timestamp. */
  datatype Outcome = Outcome(roll: int, color: int, hour: int, minute: int)

  /** A white event waiting for, or holding, its predictions: `idx` is its
      position in the history, counted from the newest outcome. */
  datatype PendingWhite = PendingWhite(id: int, idx: int, hour: int, minute: int, completed: bool, pred: seq<Combo>)

  /** The messages `onTick` sends while the bot is running. */
  datatype Message =
    | WhiteDetected(hour: int, minute: int)
    | Signal(hour: int, minute: int, labels: seq<Label>, target: int, distance: int, strength: Strength)

  /** `history`, `pendingWhites`, `minutePredMap` and `whiteSeq` (index.js:59-62). */
  datatype State = State(history: seq<Outcome>, pending: seq<PendingWhite>, index: Index, whiteSeq: int)

  datatype Step = Step(state: State, sent: seq<Message>)

  /** The state before the first tick. */
  const Initial: State := State([], [], map[], 0)

  // ---------------------------------------------------------------------------
  // Recording the outcome (index.js:87-88).

  /** `history.unshift(o); if (history.length > HISTORY_MAX) history.pop()`. */
  function Record(h: seq<Outcome>, o: Outcome): (r: seq<Outcome>)
    ensures |r| == if |h| + 1 > HistoryMax then |h| else |h| + 1
    ensures r[0] == o
    ensures forall k :: 1 <= k < |r| ==> r[k] == h[k - 1]
  {
    var pushed := [o] + h;
    if |pushed| > HistoryMax then pushed[..|pushed| - 1] else pushed
  }

  // ---------------------------------------------------------------------------
  // Completing windows (index.js:91-107).

  /** `history[k]` is defined. */
  predicate Has(h: seq<Outcome>, k: int)
  {
    0 <= k < |h|
  }

  /** `[before2, before1, after1.roll, after2.roll]` without the missing
      entries, oldest first. */
  function Window(h: seq<Outcome>, idx: int): seq<int>
    requires Has(h, idx - 1) && Has(h, idx - 2)
  {
    (if Has(h, idx + 2) then [h[idx + 2].roll] else [])
    + (if Has(h, idx + 1) then [h[idx + 1].roll] else [])
    + [h[idx - 1].roll, h[idx - 2].roll]
  }

  /** Both outcomes after the white exist and it is not yet completed. */
  predicate Completes(h: seq<Outcome>, w: PendingWhite)
  {
    !w.completed && Has(h, w.idx - 1) && Has(h, w.idx - 2)
  }

  function CompleteOne(h: seq<Outcome>, w: PendingWhite): PendingWhite
  {
    if Completes(h, w) then w.(completed := true, pred := Combos(w.minute, Window(h, w.idx))) else w
  }

  function CompleteAll(h: seq<Outcome>, ps: seq<PendingWhite>): (r: seq<PendingWhite>)
    ensures |r| == |ps|
    ensures forall k :: 0 <= k < |ps| ==> r[k] == CompleteOne(h, ps[k])
  {
    seq(|ps|, k requires 0 <= k < |ps| => CompleteOne(h, ps[k]))
  }

  /** The index after the completion pass has recorded every newly completed
      white, in list order. */
  function CompletionIndex(h: seq<Outcome>, ps: seq<PendingWhite>, index: Index): Index
  {
    if ps == [] then index
    else
      var before := CompletionIndex(h, ps[..|ps| - 1], index);
      var w := ps[|ps| - 1];
      if Completes(h, w) then AddPreds(before, w.id, CompleteOne(h, w).pred) else before
  }

  // ---------------------------------------------------------------------------
  // Announcing hits (index.js:110-126).

  /** `w.pred.filter(p => p.minute === m)`. */
  function Hits(pred: seq<Combo>, m: int): (r: seq<Combo>)
    ensures forall c :: c in r <==> c in pred && c.minute == m
    ensures |r| <= |pred|
  {
    if pred == [] then []
    else (if pred[0].minute == m then [pred[0]] else []) + Hits(pred[1..], m)
  }

  /** Filtering distributes over concatenation, so the hits keep the order
      and the multiplicity they have in `pred`. */
  lemma {:induction false} HitsAppend(a: seq<Combo>, b: seq<Combo>, m: int)
    ensures Hits(a + b, m) == Hits(a, m) + Hits(b, m)
  {
    if a != [] {
      assert (a + b)[1..] == a[1..] + b;
      HitsAppend(a[1..], b, m);
    } else {
      assert a + b == b;
    }
  }

  /** `hits.map(h => h.label).slice(0, 6)`. */
  function FirstLabels(hits: seq<Combo>): (r: seq<Label>)
    ensures |r| == if |hits| < 6 then |hits| else 6
    ensures forall k :: 0 <= k < |r| ==> r[k] == hits[k].tag
  {
    var labels := seq(|hits|, k requires 0 <= k < |hits| => hits[k].tag);
    if |labels| > 6 then labels[..6] else labels
  }

  /** A completed white has a prediction for minute `m`. */
  predicate Fires(w: PendingWhite, m: int)
  {
    w.completed && Hits(w.pred, m) != []
  }

  function SignalFor(w: PendingWhite, m: int, index: Index): Message
  {
    Signal(w.hour, w.minute, FirstLabels(Hits(w.pred, m)), m, w.idx, StrengthOf(w.idx, m, index))
  }

  /** The signals of one pass over the pending whites, in list order. */
  function Alerts(ps: seq<PendingWhite>, m: int, index: Index): seq<Message>
  {
    if ps == [] then []
    else
      var w := ps[|ps| - 1];
      Alerts(ps[..|ps| - 1], m, index) + (if Fires(w, m) then [SignalFor(w, m, index)] else [])
  }

  // ---------------------------------------------------------------------------
  // New whites, ageing and eviction (index.js:129-143).

  function NewWhite(id: int, o: Outcome): PendingWhite
  {
    PendingWhite(id, 0, o.hour, o.minute, false, [])
  }

  /** `for (const w of pendingWhites) w.idx++`. */
  function Aged(ps: seq<PendingWhite>): (r: seq<PendingWhite>)
    ensures |r| == |ps|
    ensures forall k :: 0 <= k < |ps| ==> r[k] == ps[k].(idx := ps[k].idx + 1)
  {
    seq(|ps|, k requires 0 <= k < |ps| => ps[k].(idx := ps[k].idx + 1))
  }

  /** Drops whites from the front while the first is older than
      `EvictAfter`, removing each one's ids from the index. */
  function Evict(ps: seq<PendingWhite>, index: Index): (r: (seq<PendingWhite>, Index))
    decreases |ps|
  {
    if ps != [] && ps[0].idx > EvictAfter then Evict(ps[1..], RemovePreds(index, ps[0].id, ps[0].pred))
    else (ps, index)
  }

  // ---------------------------------------------------------------------------
  // One tick.

  /** The first half of a tick (index.js:87-107): record the outcome and
      complete the windows that became complete. The alert pass reads this
      state. */
  function Absorb(s: State, o: Outcome): State
  {
    var h := Record(s.history, o);
    State(h, CompleteAll(h, s.pending), CompletionIndex(h, s.pending, s.index), s.whiteSeq)
  }

  /** `pendingWhites.push({ id: ++whiteSeq, idx: 0, ... })` (index.js:129-133). */
  function Register(s: State, o: Outcome): State
  {
    State(s.history, s.pending + [NewWhite(s.whiteSeq + 1, o)], s.index, s.whiteSeq + 1)
  }

  /** Age every white and evict the old ones (index.js:136-143). */
  function AgeEvict(s: State): State
  {
    var evicted := Evict(Aged(s.pending), s.index);
    State(s.history, evicted.0, evicted.1, s.whiteSeq)
  }

  /** The second half of a tick (index.js:129-143): register a white on a 0
      roll, age every white and evict the old ones. */
  function Settle(s: State, o: Outcome): State
  {
    AgeEvict(if o.roll == 0 then Register(s, o) else s)
  }

  /** `onTick(roll, color, at)`: the new state and the messages sent. */
  function Tick(s: State, o: Outcome, running: bool): Step
  {
    var mid := Absorb(s, o);
    var alerts := Alerts(mid.pending, o.minute, mid.index);
    var notice := if o.roll == 0 then [WhiteDetected(o.hour, o.minute)] else [];
    Step(Settle(mid, o), if running then alerts + notice else [])
  }
}
