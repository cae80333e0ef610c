/**
  The prediction index `minutePredMap` of index.js: for every target minute,
  the ids of the pending white events that have a prediction aimed at it.
  Buckets are created on the first insertion and deleted when they become
  empty, so the map never holds an empty set. The index also decides the
  strength of an alert (`strength`, index.js:79-84).
*/
module PredictionIndex {
  import opened Combinations

  type Index = map<int, set<int>>

  /** White `id` is recorded under minute `m`. */
  predicate InIndex(index: Index, m: int, id: int)
  {
    m in index && id in index[m]
  }

  /** No bucket is an empty set. */
  predicate NoEmpty(index: Index)
  {
    forall m :: m in index ==> index[m] != {}
  }

  /** The minutes a list of predictions targets. */
  function Targets(pred: seq<Combo>): (r: set<int>)
    ensures forall m :: m in r <==> exists q :: 0 <= q < |pred| && pred[q].minute == m
  {
    set q | 0 <= q < |pred| :: pred[q].minute
  }

  /** `if (!map.has(m)) map.set(m, new Set()); map.get(m).add(id)`
      (index.js:101-104). */
  function AddId(index: Index, m: int, id: int): (r: Index)
    ensures forall m', id' :: InIndex(r, m', id') <==> InIndex(index, m', id') || (m' == m && id' == id)
    ensures r.Keys == index.Keys + {m}
    ensures NoEmpty(index) ==> NoEmpty(r)
  {
    if m !in index then index[m := {id}] else index[m := index[m] + {id}]
  }

  /** `set.delete(id); if (!set.size) map.delete(m)`, skipped when minute `m`
      has no bucket (index.js:140-141). */
  function RemoveId(index: Index, m: int, id: int): (r: Index)
    ensures forall m', id' :: InIndex(r, m', id') <==> InIndex(index, m', id') && !(m' == m && id' == id)
    ensures NoEmpty(index) ==> NoEmpty(r)
    ensures m in index && index[m] == {id} ==> m !in r
  {
    if m !in index then index
    else
      var rest := index[m] - {id};
      if |rest| == 0 then
        var r := index - {m};
        assert forall k :: k in r ==> k != m && r[k] == index[k];
        assert forall k :: k !in rest;
        r
      else index[m := rest]
  }

  /** The index after recording white `id` under the minute of each of its
      predictions in turn. */
  function AddPreds(index: Index, id: int, pred: seq<Combo>): Index
  {
    if pred == [] then index
    else AddId(AddPreds(index, id, pred[..|pred| - 1]), pred[|pred| - 1].minute, id)
  }

  /** The index after removing white `id` from the bucket of each of its
      predictions in turn. */
  function RemovePreds(index: Index, id: int, pred: seq<Combo>): Index
  {
    if pred == [] then index
    else RemoveId(RemovePreds(index, id, pred[..|pred| - 1]), pred[|pred| - 1].minute, id)
  }

  lemma TargetsSnoc(pred: seq<Combo>)
    requires pred != []
    ensures Targets(pred) == Targets(pred[..|pred| - 1]) + {pred[|pred| - 1].minute}
  {
    var init := pred[..|pred| - 1];
    forall m ensures m in Targets(pred) <==> m in Targets(init) || m == pred[|pred| - 1].minute {
      if m in Targets(pred) && m != pred[|pred| - 1].minute {
        var q :| 0 <= q < |pred| && pred[q].minute == m;
        assert init[q] == pred[q];
      }
      if m in Targets(init) {
        var q :| 0 <= q < |init| && init[q].minute == m;
        assert pred[q] == init[q];
      }
    }
  }

  /** Recording a white's predictions adds exactly the pairs (minute, id) for
      the minutes they target, and keeps every bucket non-empty. */
  lemma {:induction false} AddPredsSpec(index: Index, id: int, pred: seq<Combo>)
    ensures forall m, x :: InIndex(AddPreds(index, id, pred), m, x) <==>
      InIndex(index, m, x) || (x == id && m in Targets(pred))
    ensures NoEmpty(index) ==> NoEmpty(AddPreds(index, id, pred))
  {
    if pred != [] {
      AddPredsSpec(index, id, pred[..|pred| - 1]);
      TargetsSnoc(pred);
    }
  }

  /** Removing a white's predictions removes exactly the pairs (minute, id) for
      the minutes they target, and keeps every bucket non-empty. */
  lemma {:induction false} RemovePredsSpec(index: Index, id: int, pred: seq<Combo>)
    ensures forall m, x :: InIndex(RemovePreds(index, id, pred), m, x) <==>
      InIndex(index, m, x) && !(x == id && m in Targets(pred))
    ensures NoEmpty(index) ==> NoEmpty(RemovePreds(index, id, pred))
  {
    if pred != [] {
      RemovePredsSpec(index, id, pred[..|pred| - 1]);
      TargetsSnoc(pred);
    }
  }

  /** The distances `fortesSet` marks as strong (index.js:57). */
  const Fortes: set<int> := {5, 7, 8, 9, 12}

  /** "⚡ Muito Forte", "🔥 Forte" and "Sinal". */
  datatype Strength = VeryStrong | Strong | Plain

  /** `strength(distance, minute)` (index.js:79-84). */
  function StrengthOf(distance: int, minute: int, index: Index): (r: Strength)
    ensures r == VeryStrong <==> minute in index && |index[minute]| >= 2
    ensures r == Strong <==> !(minute in index && |index[minute]| >= 2) && distance in Fortes
    ensures r == Plain <==> !(minute in index && |index[minute]| >= 2) && distance !in Fortes
  {
    var base := if distance in Fortes then Strong else Plain;
    if minute in index && |index[minute]| >= 2 then VeryStrong else base
  }

  lemma PairCard(s: set<int>, a: int, b: int)
    requires a in s && b in s && a != b
    ensures |s| >= 2
  {
    var two := {a, b};
    assert |two| == 2;
    assert s == two + (s - two);
  }

  lemma NoMembers(s: set<int>)
    requires forall y :: y !in s
    ensures s == {}
  {
    assert forall y :: y in s <==> y in {};
  }

  lemma MemberOf(s: set<int>) returns (a: int)
    requires s != {}
    ensures a in s
  {
    if forall y :: y !in s {
      NoMembers(s);
    }
    a :| a in s;
  }

  lemma TwoOf(s: set<int>) returns (a: int, b: int)
    requires |s| >= 2
    ensures a in s && b in s && a != b
  {
    a := MemberOf(s);
    assert |s - {a}| == |s| - 1;
    b := MemberOf(s - {a});
  }
}
