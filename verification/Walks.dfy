/** Loops over positions: a bounded loop that does not end runs in a cycle, and what a loop that ends collects. */
module Walks {
  import opened Text
  import opened Sequences

  /** Where k steps lead; None once the walk has ended. */
  function Walk(next: nat -> Option<nat>, p: nat, k: nat): Option<nat>
    decreases k
  {
    if k == 0 then Some(p)
    else if next(p).None? then None
    else Walk(next, next(p).value, k - 1)
  }

  lemma {:induction false} WalkAdds(next: nat -> Option<nat>, p: nat, a: nat, b: nat)
    ensures Walk(next, p, a + b) == if Walk(next, p, a).None? then None else Walk(next, Walk(next, p, a).value, b)
    decreases a
  {
    if a > 0 && next(p).Some? { WalkAdds(next, next(p).value, a - 1, b); }
  }

  lemma {:induction false} CycleGoesOn(next: nat -> Option<nat>, q: nat, k: nat, m: nat)
    requires k > 0 && Walk(next, q, k) == Some(q)
    ensures Walk(next, q, m).Some?
    decreases m
  {
    if m < k {
      WalkAdds(next, q, m, k - m);
    } else {
      WalkAdds(next, q, k, m - k);
      CycleGoesOn(next, q, k, m - k);
    }
  }

  lemma RevisitGoesOn(next: nat -> Option<nat>, p: nat, i: nat, j: nat, m: nat)
    requires i < j && Walk(next, p, i).Some? && Walk(next, p, j) == Walk(next, p, i)
    ensures Walk(next, p, m).Some?
  {
    WalkAdds(next, p, i, j - i);
    if m < i {
      WalkAdds(next, p, m, i - m);
    } else {
      WalkAdds(next, p, i, m - i);
      CycleGoesOn(next, Walk(next, p, i).value, j - i, m - i);
    }
  }

  /** Below n every step starts; so a walk of more than n steps never ends. */
  lemma LongWalkGoesOn(next: nat -> Option<nat>, p: nat, n: nat, m: nat)
    requires forall q: nat :: next(q).Some? ==> q < n
    requires Walk(next, p, n + 1).Some?
    ensures Walk(next, p, m).Some?
  {
    forall k: nat | k <= n ensures Walk(next, p, k).Some? && Walk(next, p, k).value < n {
      WalkAdds(next, p, k, n + 1 - k);
    }
    var visited := seq(n + 1, k requires 0 <= k < n + 1 => Walk(next, p, k).value);
    var i, j := Pigeonhole(visited, n);
    RevisitGoesOn(next, p, i, j, m);
  }

  // ---- A loop that collects text

  /** One pass: an error, the end, or some text and the next position. */
  datatype Pass = Malformed | Finished | More(data: string, next: nat)

  datatype Result = Unfinished | Refused | Text(text: string)

  function Prefixed(s: string, r: Result): Result { if r.Text? then Text(s + r.text) else r }

  /** What the loop has collected after at most so many passes. */
  function Within(step: nat -> Pass, p: nat, passes: nat): Result
    decreases passes
  {
    if passes == 0 then Unfinished
    else match step(p)
      case Malformed => Refused
      case Finished => Text("")
      case More(data, next) => Prefixed(data, Within(step, next, passes - 1))
  }

  /** The step from one position to the next, while the loop goes on. */
  function Go(step: nat -> Pass): nat -> Option<nat>
  {
    (p: nat) => if step(p).More? then Some(step(p).next) else None
  }

  lemma {:induction false} UnfinishedGoesOn(step: nat -> Pass, p: nat, n: nat)
    ensures Within(step, p, n) == Unfinished <==> Walk(Go(step), p, n).Some?
    decreases n
  {
    if n > 0 && step(p).More? { UnfinishedGoesOn(step, step(p).next, n - 1); }
  }

  lemma {:induction false} ResultStays(step: nat -> Pass, p: nat, n: nat, m: nat)
    requires n <= m && Within(step, p, n) != Unfinished
    ensures Within(step, p, m) == Within(step, p, n)
    decreases n
  {
    if step(p).More? { ResultStays(step, step(p).next, n - 1, m - 1); }
  }

  /** The loop ends. */
  ghost predicate Ends(step: nat -> Pass) { exists n: nat :: Within(step, 0, n) != Unfinished }

  /** The loop ends with this result; None stands for the error. */
  ghost predicate EndsWith(step: nat -> Pass, r: Option<string>)
  {
    exists n: nat :: Within(step, 0, n) == if r.Some? then Text(r.value) else Refused
  }

  lemma EndsWithOne(step: nat -> Pass, r: Option<string>, r': Option<string>)
    requires EndsWith(step, r) && EndsWith(step, r')
    ensures r == r'
  {
    var n: nat :| Within(step, 0, n) == if r.Some? then Text(r.value) else Refused;
    var n': nat :| Within(step, 0, n') == if r'.Some? then Text(r'.value) else Refused;
    ResultStays(step, 0, n, n + n');
    ResultStays(step, 0, n', n + n');
  }

  lemma LongRunIsUnfinished(step: nat -> Pass, n: nat, m: nat)
    requires forall q: nat :: step(q).More? ==> q < n
    requires Within(step, 0, n + 1) == Unfinished
    ensures Within(step, 0, m) == Unfinished
  {
    UnfinishedGoesOn(step, 0, n + 1);
    LongWalkGoesOn(Go(step), 0, n, m);
    UnfinishedGoesOn(step, 0, m);
  }

  /** With n positions to go on from, the loop ends exactly if it ends within n + 1 passes. */
  lemma EndsExactly(step: nat -> Pass, n: nat)
    requires forall q: nat :: step(q).More? ==> q < n
    ensures Ends(step) <==> Within(step, 0, n + 1) != Unfinished
  {
    if Within(step, 0, n + 1) == Unfinished {
      forall m: nat ensures Within(step, 0, m) == Unfinished { LongRunIsUnfinished(step, n, m); }
    }
  }

  /** The loop reaches the position. */
  ghost predicate Reached(step: nat -> Pass, p: nat) { exists k: nat :: Walk(Go(step), 0, k) == Some(p) }

  lemma {:induction false} ForwardWalk(step: nat -> Pass, k: nat)
    requires forall p: nat :: Reached(step, p) && step(p).More? ==> p < step(p).next
    ensures Walk(Go(step), 0, k).Some? ==> k <= Walk(Go(step), 0, k).value
    decreases k
  {
    if k > 0 {
      ForwardWalk(step, k - 1);
      WalkAdds(Go(step), 0, k - 1, 1);
      var before := Walk(Go(step), 0, k - 1);
      if before.Some? && step(before.value).More? {
        assert Reached(step, before.value);
        assert Walk(Go(step), before.value, 1) == Walk(Go(step), step(before.value).next, 0);
      }
    }
  }

  /** A loop whose steps all lead forward ends. */
  lemma ForwardEnds(step: nat -> Pass, n: nat)
    requires forall q: nat :: step(q).More? ==> q < n
    requires forall p: nat :: Reached(step, p) && step(p).More? ==> p < step(p).next
    ensures Ends(step)
  {
    ForwardWalk(step, n + 1);
    UnfinishedGoesOn(step, 0, n + 1);
    if Walk(Go(step), 0, n + 1).Some? {
      WalkAdds(Go(step), 0, n, 1);
      ForwardWalk(step, n);
    }
  }

  lemma SelfStepNeverEnds(step: nat -> Pass)
    requires step(0).More? && step(0).next == 0
    ensures !Ends(step)
  {
    forall n: nat ensures Within(step, 0, n) == Unfinished {
      assert Walk(Go(step), 0, 1) == Walk(Go(step), 0, 0) == Some(0);
      CycleGoesOn(Go(step), 0, 1, n);
      UnfinishedGoesOn(step, 0, n);
    }
  }

  lemma PrefixedTwice(a: string, b: string, r: Result)
    ensures Prefixed(a, Prefixed(b, r)) == Prefixed(a + b, r)
  {
    if r.Text? { assert a + (b + r.text) == a + b + r.text; }
  }

  lemma PrefixedByNothing(r: Result)
    ensures Prefixed("", r) == r
  {
    if r.Text? { assert "" + r.text == r.text; }
  }

  /** One pass of the loop: what has been collected, and what the rest collects. */
  lemma PassKeepsResult(step: nat -> Pass, p: nat, passes: nat, collected: string)
    requires Within(step, p, passes) != Unfinished
    ensures passes > 0
    ensures Prefixed(collected, Within(step, p, passes)) ==
      match step(p)
      case Malformed => Refused
      case Finished => Text(collected)
      case More(data, next) => Prefixed(collected + data, Within(step, next, passes - 1))
  {
    assert collected + "" == collected;
    match step(p)
    case More(data, next) => PrefixedTwice(collected, data, Within(step, next, passes - 1));
    case _ =>
  }
}
