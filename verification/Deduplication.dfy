/** A bounded FIFO table of outcomes in front of a state machine, as the replicated log
    keeps one: a command whose key was applied lately is answered, not executed. */
module Deduplication {
  import opened Common

  const MAX_APPLIED_OPS: nat := 10_000

  /** A deterministic state machine: where it starts and what a command does and answers. */
  datatype Machine<!S, !C, R> = Machine(initial: S, run: (S, C) -> (S, R))

  datatype Entry<C> = Entry(key: string, command: C)

  /** `keys` is the insertion order of the ordered dictionary `applied_ops`. */
  datatype Replica<S, R> = Replica(tree: S, keys: seq<string>, outcomes: map<string, R>)

  /** The last `MAX_APPLIED_OPS` of a list. */
  function Recent<T>(xs: seq<T>): seq<T> {
    if |xs| > MAX_APPLIED_OPS then xs[|xs| - MAX_APPLIED_OPS..] else xs
  }

  function Apply<S, C, R>(m: Machine<S, C, R>, r: Replica<S, R>, e: Entry<C>): (Replica<S, R>, R) {
    if e.key in r.outcomes then (r, r.outcomes[e.key])
    else
      var done := m.run(r.tree, e.command);
      var keys := Recent(r.keys + [e.key]);
      (Replica(done.0, keys, Restrict(r.outcomes[e.key := done.1], keys)), done.1)
  }

  function Restrict<R>(outcomes: map<string, R>, keys: seq<string>): map<string, R> {
    map k | k in outcomes && k in keys :: outcomes[k]
  }

  lemma {:induction false} ForgetOldest<R>(outcomes: map<string, R>, keys: seq<string>)
    requires keys != [] && Distinct(keys)
    ensures Restrict(outcomes, keys) - {keys[0]} == Restrict(outcomes, keys[1..])
    ensures Distinct(keys[1..]) && forall k :: k in keys[1..] ==> k in keys
  {
    forall k ensures k in keys[1..] <==> k in keys && k != keys[0] {
      if k in keys && k != keys[0] {
        var i :| 0 <= i < |keys| && keys[i] == k;
        assert keys[1..][i - 1] == k;
      }
    }
  }

  // ----- The replica after a log, and the commands it really ran -----

  function After<S, C, R>(m: Machine<S, C, R>, es: seq<Entry<C>>): Replica<S, R> {
    if es == [] then Replica(m.initial, [], map[]) else Apply(m, After(m, es[..|es| - 1]), es[|es| - 1]).0
  }

  /** What the caller of entry `j` receives. */
  function Answer<S, C, R>(m: Machine<S, C, R>, es: seq<Entry<C>>, j: nat): R
    requires j < |es|
  {
    Apply(m, After(m, es[..j]), es[j]).1
  }

  /** The entries that were executed instead of being answered from the table. */
  function Executed<S, C, R>(m: Machine<S, C, R>, es: seq<Entry<C>>): seq<Entry<C>> {
    if es == [] then []
    else
      var before := es[..|es| - 1];
      var e := es[|es| - 1];
      if e.key in After(m, before).outcomes then Executed(m, before) else Executed(m, before) + [e]
  }

  /** The same log without its repeats: the first use of each key. */
  function FirstUses<C>(es: seq<Entry<C>>): seq<Entry<C>> {
    if es == [] then []
    else
      var before := es[..|es| - 1];
      var e := es[|es| - 1];
      if UsesKey(before, e.key) then FirstUses(before) else FirstUses(before) + [e]
  }

  predicate UsesKey<C>(es: seq<Entry<C>>, key: string) {
    exists i :: 0 <= i < |es| && es[i].key == key
  }

  ghost predicate DistinctKeys<C>(es: seq<Entry<C>>) {
    forall i, j :: 0 <= i < j < |es| ==> es[i].key != es[j].key
  }

  /** Running a log with no table at all. */
  function TreeAfter<S, C, R>(m: Machine<S, C, R>, es: seq<Entry<C>>): S {
    if es == [] then m.initial else m.run(TreeAfter(m, es[..|es| - 1]), es[|es| - 1].command).0
  }

  function OutcomeOf<S, C, R>(m: Machine<S, C, R>, es: seq<Entry<C>>, p: nat): R
    requires p < |es|
  {
    m.run(TreeAfter(m, es[..p]), es[p].command).1
  }

  // ----- The table is the recent past -----

  ghost predicate Remembers<S, C, R>(m: Machine<S, C, R>, r: Replica<S, R>, ran: seq<Entry<C>>) {
    && r.tree == TreeAfter(m, ran)
    && RecentKeys(r.keys, ran)
    && Distinct(r.keys)
    && (forall k :: k in r.outcomes <==> k in r.keys)
    && forall p :: 0 <= p < |ran| && |ran| - 1 - p < 10_000 ==> RemembersAt(m, r, ran, p)
  }

  ghost predicate RecentKeys<C>(keys: seq<string>, ran: seq<Entry<C>>) {
    && |keys| == Min(|ran|, 10_000)
    && forall i :: 0 <= i < |keys| ==> keys[i] == ran[|ran| - |keys| + i].key
  }

  ghost predicate RemembersAt<S, C, R>(m: Machine<S, C, R>, r: Replica<S, R>, ran: seq<Entry<C>>, p: nat)
    requires p < |ran|
  {
    ran[p].key in r.outcomes && r.outcomes[ran[p].key] == OutcomeOf(m, ran, p)
  }

  lemma {:induction false} RecentSnoc<C>(keys: seq<string>, ran: seq<Entry<C>>, e: Entry<C>)
    requires RecentKeys(keys, ran) && Distinct(keys) && e.key !in keys
    ensures RecentKeys(Recent(keys + [e.key]), ran + [e]) && Distinct(Recent(keys + [e.key]))
  {
    RecentIsDistinct(keys + [e.key]);
    var dropped := Max(0, |keys| + 1 - MAX_APPLIED_OPS);
    forall i | 0 <= i < |Recent(keys + [e.key])|
      ensures Recent(keys + [e.key])[i] == (ran + [e])[|ran| - |keys| + dropped + i].key
    {
      RecentAt(keys + [e.key], i);
      LaterKey(keys, ran, e, dropped + i);
    }
  }

  lemma {:induction false} RecentAt(keys: seq<string>, i: nat)
    requires i < |Recent(keys)|
    ensures |Recent(keys)| == Min(|keys|, MAX_APPLIED_OPS)
    ensures Recent(keys)[i] == keys[Max(0, |keys| - MAX_APPLIED_OPS) + i]
  {
  }

  lemma {:induction false} RecentIsDistinct(keys: seq<string>)
    requires Distinct(keys)
    ensures Distinct(Recent(keys)) && |Recent(keys)| == Min(|keys|, MAX_APPLIED_OPS)
  {
    forall i, j | 0 <= i < j < |Recent(keys)| ensures Recent(keys)[i] != Recent(keys)[j] {
      RecentAt(keys, i);
      RecentAt(keys, j);
    }
  }

  lemma {:induction false} LaterKey<C>(keys: seq<string>, ran: seq<Entry<C>>, e: Entry<C>, i: nat)
    requires RecentKeys(keys, ran) && i <= |keys|
    ensures (keys + [e.key])[i] == (ran + [e])[|ran| - |keys| + i].key
  {
  }

  lemma {:induction false} ExecutionIsRemembered<S, C, R>(m: Machine<S, C, R>, r: Replica<S, R>, ran: seq<Entry<C>>,
        e: Entry<C>)
    requires Remembers(m, r, ran) && e.key !in r.outcomes
    ensures Remembers(m, Apply(m, r, e).0, ran + [e]) && Apply(m, r, e).1 == OutcomeOf(m, ran + [e], |ran|)
  {
    var all := ran + [e];
    assert all[..|ran|] == ran;
    RecentSnoc(r.keys, ran, e);
    forall p | 0 <= p < |all| && |all| - 1 - p < MAX_APPLIED_OPS ensures RemembersAt(m, Apply(m, r, e).0, all, p) {
      StillRemembered(m, r, ran, e, p);
    }
  }

  lemma {:induction false} StillRemembered<S, C, R>(m: Machine<S, C, R>, r: Replica<S, R>, ran: seq<Entry<C>>,
        e: Entry<C>, p: nat)
    requires Remembers(m, r, ran) && e.key !in r.outcomes
    requires p <= |ran| && |ran| - p < MAX_APPLIED_OPS
    ensures RemembersAt(m, Apply(m, r, e).0, ran + [e], p)
  {
    var all := ran + [e];
    var keys := Recent(r.keys + [e.key]);
    RecentSnoc(r.keys, ran, e);
    assert all[..p] == ran[..p];
    assert keys[p - (|all| - |keys|)] == all[p].key;
    if p < |ran| {
      assert RemembersAt(m, r, ran, p);
    }
  }

  /** After any log, with any retries: the tree is the one the executed commands build, and
      the table holds the outcomes of exactly the last 10000 of them. */
  lemma {:induction false} TableIsTheRecentPast<S, C, R>(m: Machine<S, C, R>, es: seq<Entry<C>>)
    ensures Remembers(m, After(m, es), Executed(m, es))
  {
    if es != [] {
      var before, e := es[..|es| - 1], es[|es| - 1];
      TableIsTheRecentPast(m, before);
      if e.key !in After(m, before).outcomes {
        ExecutionIsRemembered(m, After(m, before), Executed(m, before), e);
      }
    }
  }

  /** Some command with this key was executed, and fewer than 10000 after it. */
  ghost predicate RanLately<C>(ran: seq<Entry<C>>, key: string) {
    exists p :: 0 <= p < |ran| && ran[p].key == key && |ran| - 1 - p < 10_000
  }

  /** The branch `apply` takes: a key is answered from the table if and only if it ran lately. */
  lemma {:induction false} AnsweredIffRanLately<S, C, R>(m: Machine<S, C, R>, es: seq<Entry<C>>, key: string)
    ensures key in After(m, es).outcomes <==> RanLately(Executed(m, es), key)
  {
    TableIsTheRecentPast(m, es);
    KnownIffRanLately(m, After(m, es), Executed(m, es), key);
  }

  lemma {:induction false} KnownIffRanLately<S, C, R>(m: Machine<S, C, R>, r: Replica<S, R>, ran: seq<Entry<C>>,
        key: string)
    requires Remembers(m, r, ran)
    ensures key in r.outcomes <==> RanLately(ran, key)
  {
    if key in r.outcomes {
      var i :| 0 <= i < |r.keys| && r.keys[i] == key;
      var p := |ran| - |r.keys| + i;
      assert ran[p].key == key && |ran| - 1 - p < MAX_APPLIED_OPS;
    }
    if RanLately(ran, key) {
      var p :| 0 <= p < |ran| && ran[p].key == key && |ran| - 1 - p < MAX_APPLIED_OPS;
      assert RemembersAt(m, r, ran, p);
    }
  }

  /** Whoever asks gets the outcome of an execution of the same key, the last one. */
  lemma {:induction false} AnswerWasExecuted<S, C, R>(m: Machine<S, C, R>, es: seq<Entry<C>>, j: nat) returns (p: nat)
    requires j < |es|
    ensures p < |Executed(m, es[..j + 1])| && Executed(m, es[..j + 1])[p].key == es[j].key
    ensures Answer(m, es, j) == OutcomeOf(m, Executed(m, es[..j + 1]), p)
  {
    var before := es[..j];
    TableIsTheRecentPast(m, before);
    assert es[..j + 1][..j] == before;
    if es[j].key in After(m, before).outcomes {
      AnsweredIffRanLately(m, before, es[j].key);
      p :| 0 <= p < |Executed(m, before)| && Executed(m, before)[p].key == es[j].key
           && |Executed(m, before)| - 1 - p < MAX_APPLIED_OPS;
      assert RemembersAt(m, After(m, before), Executed(m, before), p);
    } else {
      p := |Executed(m, before)|;
      ExecutionIsRemembered(m, After(m, before), Executed(m, before), es[j]);
    }
  }

  /** A command answered from the table changes nothing. */
  lemma {:induction false} AnsweredChangesNothing<S, C, R>(m: Machine<S, C, R>, es: seq<Entry<C>>, e: Entry<C>)
    requires e.key in After(m, es).outcomes
    ensures After(m, es + [e]) == After(m, es) && Answer(m, es + [e], |es|) == After(m, es).outcomes[e.key]
  {
    assert (es + [e])[..|es|] == es;
  }

  // ----- Going on from a replica -----

  /** The replica after some more entries. */
  function Continue<S, C, R>(m: Machine<S, C, R>, r: Replica<S, R>, es: seq<Entry<C>>): Replica<S, R>
    decreases |es|
  {
    if es == [] then r else Continue(m, Apply(m, r, es[0]).0, es[1..])
  }

  /** Those of the entries that are executed. */
  function RunsFrom<S, C, R>(m: Machine<S, C, R>, r: Replica<S, R>, es: seq<Entry<C>>): seq<Entry<C>>
    decreases |es|
  {
    if es == [] then []
    else (if es[0].key in r.outcomes then [] else [es[0]]) + RunsFrom(m, Apply(m, r, es[0]).0, es[1..])
  }

  lemma {:induction false} ContinueSnoc<S, C, R>(m: Machine<S, C, R>, r: Replica<S, R>, es: seq<Entry<C>>, e: Entry<C>)
    ensures Continue(m, r, es + [e]) == Apply(m, Continue(m, r, es), e).0
    ensures RunsFrom(m, r, es + [e])
            == RunsFrom(m, r, es) + if e.key in Continue(m, r, es).outcomes then [] else [e]
    decreases |es|
  {
    if es == [] {
      assert es + [e] == [e] && [e][1..] == [];
    } else {
      assert (es + [e])[0] == es[0] && (es + [e])[1..] == es[1..] + [e];
      ContinueSnoc(m, Apply(m, r, es[0]).0, es[1..], e);
    }
  }

  /** Going on from the replica after a log is the replica after the longer log. */
  lemma {:induction false} ContinueAfter<S, C, R>(m: Machine<S, C, R>, es: seq<Entry<C>>, more: seq<Entry<C>>)
    ensures After(m, es + more) == Continue(m, After(m, es), more)
    ensures Executed(m, es + more) == Executed(m, es) + RunsFrom(m, After(m, es), more)
    decreases |more|
  {
    if more == [] {
      assert es + more == es;
    } else {
      var init, last := more[..|more| - 1], more[|more| - 1];
      assert more == init + [last] && es + more == (es + init) + [last];
      assert (es + more)[..|es + more| - 1] == es + init;
      ContinueAfter(m, es, init);
      ContinueSnoc(m, After(m, es), init, last);
    }
  }

  /** What a caller is answered is what the table then holds for its key. */
  lemma {:induction false} AnswerIsRecorded<S, C, R>(m: Machine<S, C, R>, r: Replica<S, R>, e: Entry<C>)
    ensures var (r', answer) := Apply(m, r, e); e.key in r'.outcomes && r'.outcomes[e.key] == answer
  {
    if e.key !in r.outcomes {
      var keys := Recent(r.keys + [e.key]);
      assert keys[|keys| - 1] == e.key;
    }
  }

  lemma {:induction false} ContinueAnswered<S, C, R>(m: Machine<S, C, R>, r: Replica<S, R>, e: Entry<C>)
    requires e.key in r.outcomes
    ensures Continue(m, r, [e]) == r && RunsFrom(m, r, [e]) == []
  {
    assert [e][1..] == [] && [] + RunsFrom(m, r, []) == [];
  }

  // ----- Retries in time are invisible -----

  /** Fewer than 10000 new keys separate each retry from its first use. */
  ghost predicate RetriesInTime<C>(es: seq<Entry<C>>) {
    forall j :: 0 <= j < |es| ==> InTime(FirstUses(es[..j]), es[j].key)
  }

  ghost predicate InTime<C>(firsts: seq<Entry<C>>, key: string) {
    forall p :: 0 <= p < |firsts| && firsts[p].key == key ==> |firsts| - 1 - p < 10_000
  }

  lemma {:induction false} FirstUsesFacts<C>(es: seq<Entry<C>>)
    ensures forall k :: UsesKey(FirstUses(es), k) <==> UsesKey(es, k)
    ensures DistinctKeys(FirstUses(es))
  {
    if es != [] {
      var before, e := es[..|es| - 1], es[|es| - 1];
      FirstUsesFacts(before);
      UsesKeySnoc(before, e);
      assert before + [e] == es;
      UsesKeySnoc(FirstUses(before), e);
      assert !UsesKey(before, e.key) ==> DistinctKeys(FirstUses(before) + [e]);
    }
  }

  lemma {:induction false} UsesKeySnoc<C>(es: seq<Entry<C>>, e: Entry<C>)
    ensures forall k :: UsesKey(es + [e], k) <==> UsesKey(es, k) || k == e.key
  {
    forall k ensures UsesKey(es + [e], k) <==> UsesKey(es, k) || k == e.key {
      if UsesKey(es, k) {
        var i :| 0 <= i < |es| && es[i].key == k;
        assert (es + [e])[i].key == k;
      }
      assert (es + [e])[|es|].key == e.key;
    }
  }

  lemma {:induction false} ExecutedKeys<S, C, R>(m: Machine<S, C, R>, es: seq<Entry<C>>)
    ensures forall k :: UsesKey(Executed(m, es), k) <==> UsesKey(es, k)
  {
    if es != [] {
      var before, e := es[..|es| - 1], es[|es| - 1];
      ExecutedKeys(m, before);
      UsesKeySnoc(before, e);
      assert before + [e] == es;
      UsesKeySnoc(Executed(m, before), e);
      TableIsTheRecentPast(m, before);
      if e.key in After(m, before).outcomes {
        assert UsesKey(Executed(m, before), e.key);
      }
    }
  }

  lemma {:induction false} InTimeOfPrefix<C>(es: seq<Entry<C>>)
    requires es != []
    ensures RetriesInTime(es) <==>
            RetriesInTime(es[..|es| - 1]) && InTime(FirstUses(es[..|es| - 1]), es[|es| - 1].key)
  {
    var before := es[..|es| - 1];
    assert forall j :: 0 <= j < |before| ==> before[..j] == es[..j];
    if RetriesInTime(before) && InTime(FirstUses(before), es[|es| - 1].key) {
      forall j | 0 <= j < |es| ensures InTime(FirstUses(es[..j]), es[j].key) {
        if j < |before| {
          assert InTime(FirstUses(before[..j]), before[j].key);
        }
      }
    }
    if RetriesInTime(es) {
      forall j | 0 <= j < |before| ensures InTime(FirstUses(before[..j]), before[j].key) {
        assert InTime(FirstUses(es[..j]), es[j].key);
      }
    }
  }

  /** Each key runs exactly once if and only if every retry comes in time. */
  lemma {:induction false} RunsOnceIffInTime<S, C, R>(m: Machine<S, C, R>, es: seq<Entry<C>>)
    ensures Executed(m, es) == FirstUses(es) <==> RetriesInTime(es)
  {
    if es != [] {
      var before, e := es[..|es| - 1], es[|es| - 1];
      RunsOnceIffInTime(m, before);
      InTimeOfPrefix(es);
      TableIsTheRecentPast(m, before);
      FirstUsesFacts(before);
      ExecutedKeys(m, before);
      if Executed(m, before) == FirstUses(before) {
        LastRunsOnceIffInTime(m, before, e);
      } else if Executed(m, es) == FirstUses(es) {
        FirstUsesFacts(es);
        ExecutedOnceShrinks(m, before, e);
        assert false;
      }
    }
  }

  lemma {:induction false} RanLatelyIffInTime<C>(ran: seq<Entry<C>>, key: string)
    requires DistinctKeys(ran)
    ensures RanLately(ran, key) <==> UsesKey(ran, key) && InTime(ran, key)
  {
    if RanLately(ran, key) {
      var p :| 0 <= p < |ran| && ran[p].key == key && |ran| - 1 - p < MAX_APPLIED_OPS;
      forall q | 0 <= q < |ran| && ran[q].key == key ensures q == p {
        assert !(q < p) && !(p < q);
      }
    }
  }

  lemma {:induction false} LastRunsOnceIffInTime<S, C, R>(m: Machine<S, C, R>, before: seq<Entry<C>>, e: Entry<C>)
    requires Executed(m, before) == FirstUses(before)
    ensures Executed(m, before + [e]) == FirstUses(before + [e]) <==> InTime(FirstUses(before), e.key)
  {
    var es := before + [e];
    assert es[..|es| - 1] == before;
    AnsweredIffRanLately(m, before, e.key);
    FirstUsesFacts(before);
    RanLatelyIffInTime(FirstUses(before), e.key);
  }

  lemma {:induction false} RepeatedKey<C>(ran: seq<Entry<C>>, e: Entry<C>)
    requires UsesKey(ran, e.key)
    ensures !DistinctKeys(ran + [e])
  {
    var i :| 0 <= i < |ran| && ran[i].key == e.key;
    assert (ran + [e])[i].key == (ran + [e])[|ran|].key;
  }

  /** Once a key has run twice, it has. */
  lemma {:induction false} ExecutedOnceShrinks<S, C, R>(m: Machine<S, C, R>, before: seq<Entry<C>>, e: Entry<C>)
    requires Executed(m, before + [e]) == FirstUses(before + [e])
    ensures Executed(m, before) == FirstUses(before)
  {
    var es := before + [e];
    assert es[..|es| - 1] == before;
    TableIsTheRecentPast(m, before);
    FirstUsesFacts(before);
    ExecutedKeys(m, before);
    var ran, firsts := Executed(m, before), FirstUses(before);
    if e.key in After(m, before).outcomes {
      assert UsesKey(ran, e.key);
    } else if UsesKey(before, e.key) {
      RepeatedKey(ran, e);
    } else {
      assert (ran + [e])[..|ran|] == (firsts + [e])[..|ran|];
    }
  }

  /** A log with retries, even retries that carry other arguments, builds the tree of the
      log without them and gives every retry the outcome of its first use. */
  lemma {:induction false} RetriesAreInvisible<S, C, R>(m: Machine<S, C, R>, es: seq<Entry<C>>, j: nat) returns (p: nat)
    requires RetriesInTime(es) && j < |es|
    ensures After(m, es).tree == TreeAfter(m, FirstUses(es))
    ensures p < |FirstUses(es)| && FirstUses(es)[p].key == es[j].key
    ensures Answer(m, es, j) == OutcomeOf(m, FirstUses(es), p)
  {
    RunsOnceIffInTime(m, es);
    TableIsTheRecentPast(m, es);
    p := AnswerWasExecuted(m, es, j);
    ExecutedGrows(m, es, j + 1);
    var ran := Executed(m, es[..j + 1]);
    assert Executed(m, es)[..p] == ran[..p];
  }

  lemma {:induction false} ExecutedGrows<S, C, R>(m: Machine<S, C, R>, es: seq<Entry<C>>, j: nat)
    requires j <= |es|
    ensures Executed(m, es[..j]) <= Executed(m, es)
    decreases |es|
  {
    if j < |es| {
      var before := es[..|es| - 1];
      assert before[..j] == es[..j];
      ExecutedGrows(m, before, j);
    } else {
      assert es[..j] == es;
    }
  }
}
