/** Runs of a system given by what each action does: the next state, or nothing when it cannot happen. */
module Systems {
  import opened Text

  ghost predicate Run<S(!new), A(!new)>(next: (S, A) -> Option<S>, s: S, actions: seq<A>, s': S)
    decreases |actions|
  {
    if actions == [] then s == s'
    else match next(s, actions[0])
      case Some(mid) => Run(next, mid, actions[1..], s')
      case None => false
  }

  lemma {:induction false} Append<S(!new), A(!new)>(
      next: (S, A) -> Option<S>, s: S, xs: seq<A>, mid: S, ys: seq<A>, s': S)
    requires Run(next, s, xs, mid) && Run(next, mid, ys, s')
    ensures Run(next, s, xs + ys, s')
    decreases |xs|
  {
    if xs == [] {
      assert xs + ys == ys;
    } else {
      Append(next, next(s, xs[0]).value, xs[1..], mid, ys, s');
      assert (xs + ys)[1..] == xs[1..] + ys;
    }
  }

  lemma Then<S(!new), A(!new)>(next: (S, A) -> Option<S>, s: S, actions: seq<A>, mid: S, a: A, s': S)
    requires Run(next, s, actions, mid) && next(mid, a) == Some(s')
    ensures Run(next, s, actions + [a], s')
  {
    assert [a][1..] == [];
    assert Run(next, s', [], s');
    Append(next, s, actions, mid, [a], s');
  }

  ghost predicate Reaches<S(!new), A(!new)>(next: (S, A) -> Option<S>, s: S, s': S) {
    exists actions :: Run(next, s, actions, s')
  }

  lemma ReachesSelf<S(!new), A(!new)>(next: (S, A) -> Option<S>, s: S)
    ensures Reaches(next, s, s)
  {
    assert Run(next, s, [], s);
  }

  lemma ReachesThen<S(!new), A(!new)>(next: (S, A) -> Option<S>, s: S, mid: S, a: A, s': S)
    requires Reaches(next, s, mid) && next(mid, a) == Some(s')
    ensures Reaches(next, s, s')
  {
    var actions :| Run(next, s, actions, mid);
    Then(next, s, actions, mid, a, s');
  }

  lemma ReachesOn<S(!new), A(!new)>(next: (S, A) -> Option<S>, s: S, mid: S, s': S)
    requires Reaches(next, s, mid) && Reaches(next, mid, s')
    ensures Reaches(next, s, s')
  {
    var xs :| Run(next, s, xs, mid);
    var ys :| Run(next, mid, ys, s');
    Append(next, s, xs, mid, ys, s');
  }

  /** Some key of a nonempty set has the lowest score. */
  lemma {:induction false} LowestExists<K(!new)>(score: map<K, int>, keys: set<K>)
    requires keys != {} && keys <= score.Keys
    ensures exists k :: k in keys && forall j :: j in keys ==> score[k] <= score[j]
    decreases keys
  {
    var x :| x in keys;
    var rest := keys - {x};
    if rest == {} {
      assert keys == {x};
    } else {
      LowestExists(score, rest);
      var k :| k in rest && forall j :: j in rest ==> score[k] <= score[j];
      var best := if score[x] <= score[k] then x else k;
      assert best in keys && forall j :: j in keys ==> j == x || j in rest;
    }
  }
}
