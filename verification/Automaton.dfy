/** Parsers that take one symbol at a time and stop in a final state, and input in fragments. */
module Automaton {

  /** Runs until a final state or the end of the input; also the number of symbols consumed. */
  function Feed<S, I>(step: (S, I) -> S, done: S -> bool, s: S, input: seq<I>): (r: (S, nat))
    ensures r.1 <= |input|
    ensures r.1 < |input| ==> done(r.0)
    decreases |input|
  {
    if done(s) || input == [] then (s, 0)
    else
      var r := Feed(step, done, step(s, input[0]), input[1..]);
      (r.0, r.1 + 1)
  }

  /** A final state consumes nothing. */
  lemma FeedDone<S, I>(step: (S, I) -> S, done: S -> bool, s: S, input: seq<I>)
    requires done(s)
    ensures Feed(step, done, s, input) == (s, 0)
  {}

  lemma FeedOne<S, I>(step: (S, I) -> S, done: S -> bool, s: S, x: I)
    requires !done(s)
    ensures Feed(step, done, s, [x]) == (step(s, x), 1)
  {
    assert [x][1..] == [];
  }

  /** Input in two pieces is the input in one. */
  lemma {:induction false} FeedSplit<S, I>(step: (S, I) -> S, done: S -> bool, s: S, a: seq<I>, b: seq<I>)
    ensures var r := Feed(step, done, s, a);
      var q := Feed(step, done, r.0, b);
      Feed(step, done, s, a + b) == (q.0, r.1 + q.1)
    decreases |a|
  {
    if done(s) {
    } else if a == [] {
      assert a + b == b;
    } else {
      assert (a + b)[0] == a[0] && (a + b)[1..] == a[1..] + b;
      FeedSplit(step, done, step(s, a[0]), a[1..], b);
    }
  }

  /** A prefix that is consumed entirely. */
  ghost predicate Leads<S(!new), I>(step: (S, I) -> S, done: S -> bool, s: S, input: seq<I>, t: S) {
    Feed(step, done, s, input) == (t, |input|)
  }

  lemma LeadsTrans<S(!new), I>(step: (S, I) -> S, done: S -> bool, s: S, a: seq<I>, t: S, b: seq<I>, u: S)
    requires Leads(step, done, s, a, t) && Leads(step, done, t, b, u)
    ensures Leads(step, done, s, a + b, u)
  {
    FeedSplit(step, done, s, a, b);
  }

  /** One symbol, then the rest. */
  lemma LeadsCons<S(!new), I>(step: (S, I) -> S, done: S -> bool, s: S, x: I, t: S, rest: seq<I>, u: S)
    requires !done(s) && t == step(s, x) && Leads(step, done, t, rest, u)
    ensures Leads(step, done, s, [x] + rest, u)
  {
    assert ([x] + rest)[1..] == rest;
  }

  lemma LeadsUncons<S(!new), I>(step: (S, I) -> S, done: S -> bool, s: S, input: seq<I>, u: S)
    requires Leads(step, done, s, input, u) && input != []
    ensures !done(s) && Leads(step, done, step(s, input[0]), input[1..], u)
  {}

  /** The state in between. */
  lemma LeadsBetween<S(!new), I>(step: (S, I) -> S, done: S -> bool, s: S, a: seq<I>, b: seq<I>, u: S) returns (t: S)
    requires Leads(step, done, s, a + b, u)
    ensures Leads(step, done, s, a, t) && Leads(step, done, t, b, u)
  {
    t := Feed(step, done, s, a).0;
    FeedSplit(step, done, s, a, b);
  }

  /** Nothing is read. */
  lemma LeadsNowhere<S(!new), I>(step: (S, I) -> S, done: S -> bool, s: S)
    ensures Leads(step, done, s, [], s)
  {}

  lemma LeadsThree<S(!new), I>(step: (S, I) -> S, done: S -> bool, s: S, a: seq<I>, t: S, b: seq<I>, u: S, c: seq<I>, v: S)
    requires Leads(step, done, s, a, t) && Leads(step, done, t, b, u) && Leads(step, done, u, c, v)
    ensures Leads(step, done, s, a + b + c, v)
  {
    LeadsTrans(step, done, s, a, t, b, u);
    LeadsTrans(step, done, s, a + b, u, c, v);
  }

  /** The first symbol, then the others. */
  lemma LeadsFirst<S(!new), I>(step: (S, I) -> S, done: S -> bool, s: S, input: seq<I>, t: S, u: S)
    requires input != [] && Leads(step, done, s, [input[0]], t) && Leads(step, done, t, input[1..], u)
    ensures Leads(step, done, s, input, u)
  {
    LeadsTrans(step, done, s, [input[0]], t, input[1..], u);
    assert [input[0]] + input[1..] == input;
  }

  /** One round of a loop that takes symbol after symbol. */
  lemma LeadsExtended<S(!new), I>(step: (S, I) -> S, done: S -> bool, s: S, input: seq<I>, count: nat, t: S, u: S)
    requires count < |input| && Leads(step, done, s, input[..count], t) && !done(t) && u == step(t, input[count])
    ensures Leads(step, done, s, input[..count + 1], u)
  {
    FeedOne(step, done, t, input[count]);
    LeadsTrans(step, done, s, input[..count], t, [input[count]], u);
    assert input[..count] + [input[count]] == input[..count + 1];
  }

  /** The end of that loop. */
  lemma LeadsFinished<S(!new), I>(step: (S, I) -> S, done: S -> bool, s: S, input: seq<I>, count: nat, t: S)
    requires count <= |input| && Leads(step, done, s, input[..count], t) && (count == |input| || done(t))
    ensures Feed(step, done, s, input) == (t, count)
  {
    FeedSplit(step, done, s, input[..count], input[count..]);
    assert input[..count] + input[count..] == input;
  }

  /** The part of the input that has been consumed. */
  lemma {:induction false} FeedLeads<S(!new), I>(step: (S, I) -> S, done: S -> bool, s: S, input: seq<I>, count: nat, t: S)
    requires Feed(step, done, s, input) == (t, count)
    ensures count <= |input| && Leads(step, done, s, input[..count], t)
    decreases |input|
  {
    if count == 0 {
      LeadsNowhere(step, done, s);
    } else {
      FeedLeads(step, done, step(s, input[0]), input[1..], count - 1, t);
      LeadsCons(step, done, s, input[0], step(s, input[0]), input[1..][..count - 1], t);
      assert [input[0]] + input[1..][..count - 1] == input[..count];
    }
  }

  /** One round of a loop that takes block after block. */
  lemma LeadsFurther<S(!new), I>(step: (S, I) -> S, done: S -> bool, s: S, input: seq<I>, count: nat, t: S, n: nat, u: S)
    requires count + n <= |input| && Leads(step, done, s, input[..count], t) && Leads(step, done, t, input[count..][..n], u)
    ensures Leads(step, done, s, input[..count + n], u)
  {
    LeadsTrans(step, done, s, input[..count], t, input[count..][..n], u);
    assert input[..count] + input[count..][..n] == input[..count + n];
  }

  /** A parser that also counts, up to a limit. */
  ghost predicate Counts<S(!new), T(!new), I(!new)>(step: (S, I) -> S, done: S -> bool, counted: (T, I) -> T,
                                                    countedDone: T -> bool, lift: (S, nat) -> T, limit: nat) {
    && (forall r, m: nat, x :: m < limit ==> counted(lift(r, m), x) == lift(step(r, x), m + 1))
    && (forall r, m: nat :: countedDone(lift(r, m)) == done(r))
  }

  /** Within the limit it goes the same way. */
  lemma {:induction false} LeadsCounted<S(!new), T(!new), I(!new)>(step: (S, I) -> S, done: S -> bool, counted: (T, I) -> T,
      countedDone: T -> bool, lift: (S, nat) -> T, limit: nat, s: S, n: nat, input: seq<I>, t: S)
    requires Leads(step, done, s, input, t) && n + |input| <= limit
    requires Counts(step, done, counted, countedDone, lift, limit)
    ensures Leads(counted, countedDone, lift(s, n), input, lift(t, n + |input|))
    decreases |input|
  {
    if input != [] {
      LeadsUncons(step, done, s, input, t);
      var r := step(s, input[0]);
      LeadsCounted(step, done, counted, countedDone, lift, limit, r, n + 1, input[1..], t);
      LeadsCons(counted, countedDone, lift(s, n), input[0], lift(r, n + 1), input[1..], lift(t, n + |input|));
      assert [input[0]] + input[1..] == input;
    }
  }

  /** One symbol takes the parser from one state to the next. */
  ghost predicate StepsTo<S(!new), I>(step: (S, I) -> S, done: S -> bool, s: S, x: I, t: S) {
    !done(s) && t == step(s, x)
  }

  /** Symbol by symbol along a row of states. */
  lemma {:induction false} LeadsAlong<S(!new), I>(step: (S, I) -> S, done: S -> bool, states: seq<S>, input: seq<I>)
    requires |states| == |input| + 1
    requires forall i :: 0 <= i < |input| ==> StepsTo(step, done, states[i], input[i], states[i + 1])
    ensures Leads(step, done, states[0], input, states[|input|])
    decreases |input|
  {
    if input == [] {
      LeadsNowhere(step, done, states[0]);
    } else {
      assert StepsTo(step, done, states[0], input[0], states[1]);
      forall i | 0 <= i < |input[1..]|
        ensures StepsTo(step, done, states[1..][i], input[1..][i], states[1..][i + 1])
      {
        assert StepsTo(step, done, states[i + 1], input[i + 1], states[i + 2]);
      }
      LeadsAlong(step, done, states[1..], input[1..]);
      LeadsCons(step, done, states[0], input[0], states[1], input[1..], states[|input|]);
      assert [input[0]] + input[1..] == input;
    }
  }

  /** A final state reached leaves everything behind it unread. */
  lemma LeadsThenRest<S(!new), I>(step: (S, I) -> S, done: S -> bool, s: S, a: seq<I>, t: S, later: seq<I>)
    requires Leads(step, done, s, a, t) && done(t)
    ensures Feed(step, done, s, a + later) == (t, |a|)
  {
    FeedSplit(step, done, s, a, later);
  }

  /** A parser inside another, which goes on by itself once the inner one has done its part. */
  ghost predicate Embeds<S(!new), T(!new), I(!new)>(step: (S, I) -> S, done: S -> bool, good: S -> bool, outer: (T, I) -> T,
                                                    outerDone: T -> bool, next: S -> T) {
    && (forall r :: good(r) ==> done(r))
    && (forall r, x :: !good(r) ==> outer(next(r), x) == next(step(r, x)))
    && (forall r :: !good(r) ==> outerDone(next(r)) == done(r))
  }

  lemma {:induction false} FeedEmbedded<S(!new), T(!new), I(!new)>(step: (S, I) -> S, done: S -> bool, good: S -> bool,
      outer: (T, I) -> T, outerDone: T -> bool, next: S -> T, s: S, t: T, input: seq<I>, r: (S, nat), q: (T, nat))
    requires Embeds(step, done, good, outer, outerDone, next)
    requires t == next(s) && r == Feed(step, done, s, input) && q == Feed(outer, outerDone, next(r.0), input[r.1..])
    ensures Feed(outer, outerDone, t, input) == (q.0, r.1 + q.1)
    decreases |input|
  {
    if done(s) || input == [] {
      assert input[0..] == input;
    } else {
      var u := step(s, input[0]);
      assert input[1..][r.1 - 1..] == input[r.1..];
      FeedEmbedded(step, done, good, outer, outerDone, next, u, next(u), input[1..], (r.0, r.1 - 1), q);
    }
  }

  function Join<I>(fragments: seq<seq<I>>): seq<I> {
    if fragments == [] then [] else fragments[0] + Join(fragments[1..])
  }

  /** One call per fragment. */
  function FeedFragments<S, I>(step: (S, I) -> S, done: S -> bool, s: S, fragments: seq<seq<I>>): (S, nat)
    decreases |fragments|
  {
    if fragments == [] then (s, 0)
    else
      var r := Feed(step, done, s, fragments[0]);
      var q := FeedFragments(step, done, r.0, fragments[1..]);
      (q.0, r.1 + q.1)
  }

  /** However the input is cut, the parser ends in the same state behind the same symbol. */
  lemma {:induction false} FragmentsDoNotMatter<S, I>(step: (S, I) -> S, done: S -> bool, s: S, fragments: seq<seq<I>>)
    ensures FeedFragments(step, done, s, fragments) == Feed(step, done, s, Join(fragments))
    decreases |fragments|
  {
    if fragments != [] {
      var r := Feed(step, done, s, fragments[0]);
      FragmentsDoNotMatter(step, done, r.0, fragments[1..]);
      FeedSplit(step, done, s, fragments[0], Join(fragments[1..]));
    }
  }
}
