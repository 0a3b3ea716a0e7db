/** What every run of a block-job counter guarantees. */
module BlockJobOutcomes {
  import opened Results
  import opened BlockJobs

  // ---------------------------------------------------------------- runs

  lemma {:induction false} RunAppend(k: Kind, cs: seq<Component>, t: Tally, a: seq<Event>, b: seq<Event>)
    ensures RunFrom(k, cs, t, a + b) == RunFrom(k, cs, RunFrom(k, cs, t, a), b)
    decreases |a|
  {
    if a == [] {
      assert a + b == b;
    } else {
      assert (a + b)[0] == a[0] && (a + b)[1..] == a[1..] + b;
      RunAppend(k, cs, Step(k, cs, t, a[0]), a[1..], b);
    }
  }

  /** The completion has occurred exactly when nothing is pending. */
  ghost predicate Sound(cs: seq<Component>, t: Tally) {
    t.pending <= Targets(cs) && t.fired == if t.pending == {} then 1 else 0
  }

  lemma StepSound(k: Kind, cs: seq<Component>, t: Tally, e: Event)
    requires Sound(cs, t)
    ensures Sound(cs, Step(k, cs, t, e)) && Step(k, cs, t, e).pending <= t.pending
  {
  }

  lemma {:induction false} RunSound(k: Kind, cs: seq<Component>, t: Tally, es: seq<Event>)
    requires Sound(cs, t)
    ensures Sound(cs, RunFrom(k, cs, t, es)) && RunFrom(k, cs, t, es).pending <= t.pending
    decreases |es|
  {
    if es != [] {
      StepSound(k, cs, t, es[0]);
      RunSound(k, cs, Step(k, cs, t, es[0]), es[1..]);
    }
  }

  lemma StartSound(cs: seq<Component>)
    ensures Sound(cs, Start(cs))
  {
    if cs != [] {
      assert cs[0].target in Targets(cs);
    }
  }

  /** For all three strategies and every run: the completion occurs at most once, it has
      occurred exactly when the pending set is empty, and the pending set only shrinks. */
  lemma CompletionOnce(k: Kind, cs: seq<Component>, es: seq<Event>, more: seq<Event>)
    ensures var before, after := Run(k, cs, es), Run(k, cs, es + more);
            && before.fired <= after.fired <= 1
            && (before.fired == 1 <==> before.pending == {})
            && (after.fired == 1 <==> after.pending == {})
            && after.pending <= before.pending <= Targets(cs)
  {
    StartSound(cs);
    RunSound(k, cs, Start(cs), es);
    RunAppend(k, cs, Start(cs), es, more);
    RunSound(k, cs, Run(k, cs, es), more);
  }

  // ---------------------------------------------------------------- the atomic strategy

  /** The first failure the counter takes notice of: a failed report under any name, or a
      reset that still finds something pending. */
  function FirstFailure(k: Kind, cs: seq<Component>, t: Tally, es: seq<Event>): Option<Code>
    decreases |es|
  {
    if es == [] then
      None
    else
      match es[0]
      case Account(_, v) =>
        if Failed(v) then Some(v) else FirstFailure(k, cs, Step(k, cs, t, es[0]), es[1..])
      case Reset =>
        if t.pending != {} then Some(CANCELED) else FirstFailure(k, cs, Step(k, cs, t, es[0]), es[1..])
  }

  /** Nothing failed and the journal holds successes only, or every component failed with
      the one code; what is not pending is journaled. */
  ghost predicate Uniform(cs: seq<Component>, t: Tally, failure: Option<Code>) {
    && Targets(cs) - t.pending <= t.journal.Keys
    && (failure.Some? ==> Failed(failure.value) && Targets(cs) <= t.journal.Keys)
    && forall n :: n in t.journal ==>
                     t.journal[n] == if failure.Some? && n in Targets(cs) then failure.value else SUCCESS
  }

  lemma PoisonUniform(cs: seq<Component>, t: Tally, v: Code, failure: Option<Code>)
    requires Uniform(cs, t, failure) && Failed(v)
    ensures Uniform(cs, t.(journal := Poison(Targets(cs), t.journal, v)), if failure.Some? then failure else Some(v))
  {
    assert Targets(cs) <= Poison(Targets(cs), t.journal, v).Keys;
  }

  lemma StrikeUniform(cs: seq<Component>, t: Tally, names: set<string>, failure: Option<Code>)
    requires Uniform(cs, t, failure)
    requires failure.Some? || names <= t.journal.Keys
    ensures Uniform(cs, Strike(t, names), failure)
  {
  }

  lemma StepUniform(k: Kind, cs: seq<Component>, t: Tally, e: Event, failure: Option<Code>)
    requires !k.Commit? && Sound(cs, t) && Uniform(cs, t, failure)
    ensures Uniform(cs, Step(k, cs, t, e), if failure.Some? then failure else FirstFailure(k, cs, t, [e]))
  {
    assert [e][1..] == [];
    match e
    case Account(name, v) =>
      var j := Journaled(k, cs, t.journal, name, v);
      var now := if failure.None? && Failed(v) then Some(v) else failure;
      if Failed(v) {
        PoisonUniform(cs, t, v, failure);
      }
      assert Uniform(cs, t.(journal := j), now);
      StrikeUniform(cs, t.(journal := j), if |cs| == |j| then j.Keys else {name}, now);
    case Reset =>
      if t.pending != {} {
        var j := Poison(Targets(cs), t.journal, CANCELED);
        PoisonUniform(cs, t, CANCELED, failure);
        StrikeUniform(cs, t.(journal := j), if |cs| == |j| then j.Keys else t.pending,
                      if failure.Some? then failure else Some(CANCELED));
      }
  }

  lemma {:induction false} RunUniform(k: Kind, cs: seq<Component>, t: Tally, es: seq<Event>, failure: Option<Code>)
    requires !k.Commit? && Sound(cs, t) && Uniform(cs, t, failure)
    ensures Uniform(cs, RunFrom(k, cs, t, es), if failure.Some? then failure else FirstFailure(k, cs, t, es))
    decreases |es|
  {
    if es != [] {
      StepSound(k, cs, t, es[0]);
      StepUniform(k, cs, t, es[0], failure);
      var next := if failure.Some? then failure else FirstFailure(k, cs, t, [es[0]]);
      FirstFailureAppend(k, cs, t, [es[0]], es[1..]);
      assert [es[0]] + es[1..] == es;
      RunUniform(k, cs, Step(k, cs, t, es[0]), es[1..], next);
    }
  }

  /** Copy and Rebase, every run: either no component is failed, or every component is
      journaled with the first failure seen. */
  lemma AtomicJournal(k: Kind, cs: seq<Component>, es: seq<Event>)
    requires !k.Commit?
    ensures var j := Run(k, cs, es).journal;
            match FirstFailure(k, cs, Start(cs), es)
            case None => forall n :: n in j ==> j[n] == SUCCESS
            case Some(f) => Failed(f) && forall c :: c in cs ==> c.target in j && j[c.target] == f
  {
    StartSound(cs);
    RunUniform(k, cs, Start(cs), es, None);
    forall c | c in cs ensures c.target in Targets(cs) {
    }
  }

  /** ... and that failure never changes afterwards. */
  lemma {:induction false} FirstFailureSticks(k: Kind, cs: seq<Component>, t: Tally, es: seq<Event>, more: seq<Event>)
    requires FirstFailure(k, cs, t, es).Some?
    ensures FirstFailure(k, cs, t, es + more) == FirstFailure(k, cs, t, es)
    decreases |es|
  {
    assert (es + more)[0] == es[0] && (es + more)[1..] == es[1..] + more;
    if (es[0].Account? && !Failed(es[0].status)) || (es[0].Reset? && t.pending == {}) {
      FirstFailureSticks(k, cs, Step(k, cs, t, es[0]), es[1..], more);
    }
  }

  // ---------------------------------------------------------------- what is pending

  /** The journal's keys in terms of the run: every name that succeeded, and nothing but
      such names and targets. */
  ghost predicate Keyed(cs: seq<Component>, t: Tally, succeeded: set<string>) {
    succeeded <= t.journal.Keys <= Targets(cs) + succeeded
  }

  /** What is pending before anything failed. */
  ghost predicate Awaiting(cs: seq<Component>, t: Tally, succeeded: set<string>) {
    t.journal.Keys == succeeded && t.pending == Targets(cs) - succeeded
  }

  lemma StepKeyed(k: Kind, cs: seq<Component>, t: Tally, e: Event, succeeded: set<string>)
    requires !k.Commit? && Keyed(cs, t, succeeded)
    ensures Keyed(cs, Step(k, cs, t, e), succeeded + Succeeded([e]))
  {
    match e
    case Account(name, v) =>
      assert Succeeded([e]) == if Failed(v) then {} else {name};
    case Reset =>
      assert Succeeded([e]) == {};
      assert Poison(Targets(cs), t.journal, CANCELED).Keys == t.journal.Keys + Targets(cs);
  }

  lemma SuccessAwaiting(k: Kind, cs: seq<Component>, t: Tally, name: string, v: Code, succeeded: set<string>)
    requires !k.Commit? && Awaiting(cs, t, succeeded) && !Failed(v)
    ensures Awaiting(cs, Accounted(k, cs, t, name, v), succeeded + {name})
  {
    var j := Journaled(k, cs, t.journal, name, v);
    assert j.Keys == succeeded + {name};
    StrikeAwaiting(Targets(cs), succeeded, name, if |cs| == |j| then j.Keys else {name});
  }

  lemma SucceededOne(e: Event)
    ensures Succeeded([e]) == if e.Account? && !Failed(e.status) then {e.name} else {}
  {
  }

  lemma NextAwaiting(k: Kind, cs: seq<Component>, t: Tally, e: Event, succeeded: set<string>)
    requires !k.Commit? && Awaiting(cs, t, succeeded)
    requires if e.Account? then !Failed(e.status) else t.pending == {}
    ensures Awaiting(cs, Step(k, cs, t, e), succeeded + Succeeded([e]))
  {
    SucceededOne(e);
    match e
    case Account(name, v) => SuccessAwaiting(k, cs, t, name, v, succeeded);
    case Reset => assert succeeded + {} == succeeded;
  }

  lemma StrikeAwaiting(targets: set<string>, succeeded: set<string>, name: string, struck: set<string>)
    requires struck == {name} || struck == succeeded + {name}
    ensures targets - succeeded - struck == targets - (succeeded + {name})
  {
  }

  lemma {:induction false} RunKeyed(k: Kind, cs: seq<Component>, t: Tally, es: seq<Event>, succeeded: set<string>)
    requires !k.Commit? && Keyed(cs, t, succeeded)
    ensures Keyed(cs, RunFrom(k, cs, t, es), Noted(succeeded, es))
    decreases |es|
  {
    if es != [] {
      StepKeyed(k, cs, t, es[0], succeeded);
      RunKeyed(k, cs, Step(k, cs, t, es[0]), es[1..], succeeded + Succeeded([es[0]]));
    }
  }

  lemma {:induction false} RunAwaiting(k: Kind, cs: seq<Component>, t: Tally, es: seq<Event>, succeeded: set<string>)
    requires !k.Commit? && Awaiting(cs, t, succeeded) && FirstFailure(k, cs, t, es).None?
    ensures Awaiting(cs, RunFrom(k, cs, t, es), Noted(succeeded, es))
    decreases |es|
  {
    if es != [] {
      NextAwaiting(k, cs, t, es[0], succeeded);
      RunAwaiting(k, cs, Step(k, cs, t, es[0]), es[1..], succeeded + Succeeded([es[0]]));
    }
  }

  /** Copy and Rebase, every run: before anything fails, exactly the targets without an
      accounted success are pending. */
  lemma AwaitingSuccess(k: Kind, cs: seq<Component>, es: seq<Event>)
    requires !k.Commit? && FirstFailure(k, cs, Start(cs), es).None?
    ensures Run(k, cs, es).pending == Targets(cs) - Succeeded(es)
  {
    RunAwaiting(k, cs, Start(cs), es, {});
    NotedAll({}, es);
  }

  /** Copy and Rebase, every run: a failed report under whatever name leaves nothing pending,
      exactly if the targets and the names that succeeded are as many as the components;
      otherwise it strikes the one name. */
  lemma FailureStrikes(k: Kind, cs: seq<Component>, es: seq<Event>, name: string, v: Code)
    requires !k.Commit? && Failed(v)
    ensures Run(k, cs, es + [Account(name, v)]).pending ==
            if |Targets(cs) + Succeeded(es)| == |cs| then {} else Run(k, cs, es).pending - {name}
  {
    var t, e := Run(k, cs, es), Account(name, v);
    RunKeyed(k, cs, Start(cs), es, {});
    NotedAll({}, es);
    CompletionOnce(k, cs, es, []);
    assert es + [] == es;
    RunAppend(k, cs, Start(cs), es, [e]);
    assert RunFrom(k, cs, t, [e]) == Step(k, cs, t, e);
    PoisonStrikes(cs, t, name, v, Succeeded(es));
  }

  lemma PoisonStrikes(cs: seq<Component>, t: Tally, name: string, v: Code, succeeded: set<string>)
    requires Keyed(cs, t, succeeded) && t.pending <= Targets(cs)
    ensures var j := Poison(Targets(cs), t.journal, v);
            Strike(t.(journal := j), if |cs| == |j| then j.Keys else {name}).pending ==
            if |Targets(cs) + succeeded| == |cs| then {} else t.pending - {name}
  {
    var j := Poison(Targets(cs), t.journal, v);
    assert j.Keys == Targets(cs) + succeeded;
    assert |j| == |j.Keys|;
  }

  ghost predicate Distinct(cs: seq<Component>) {
    forall i, j :: 0 <= i < j < |cs| ==> cs[i].target != cs[j].target
  }

  lemma {:induction false} DistinctTargets(cs: seq<Component>)
    requires Distinct(cs)
    ensures |Targets(cs)| == |cs|
  {
    if cs != [] {
      DistinctTargets(cs[1..]);
      assert cs == [cs[0]] + cs[1..];
      assert Targets(cs) == {cs[0].target} + Targets(cs[1..]);
      assert cs[0].target !in Targets(cs[1..]);
    }
  }

  /** With distinct targets and no success of a disk nobody asked for, one failure ends the
      request at once: nothing is pending and the completion has occurred. */
  lemma FailureCompletes(k: Kind, cs: seq<Component>, es: seq<Event>, name: string, v: Code)
    requires !k.Commit? && Failed(v) && Distinct(cs) && Succeeded(es) <= Targets(cs)
    ensures Run(k, cs, es + [Account(name, v)]).pending == {}
    ensures Run(k, cs, es + [Account(name, v)]).fired == 1
  {
    DistinctTargets(cs);
    assert Targets(cs) + Succeeded(es) == Targets(cs);
    FailureStrikes(k, cs, es, name, v);
    CompletionOnce(k, cs, es, [Account(name, v)]);
  }

  // ---------------------------------------------------------------- all or nothing

  function Commits(cs: seq<Component>): seq<Action> {
    if cs == [] then [] else [Finish(cs[0].target)] + Commits(cs[1..])
  }

  function Aborts(cs: seq<Component>): seq<Action> {
    if cs == [] then [] else [Abort(cs[0].target)] + Aborts(cs[1..])
  }

  lemma {:induction false} UniformProduct(k: Kind, cs: seq<Component>, j: map<string, Code>, s: Code, e: Code)
    requires !k.Commit? && forall c :: c in cs ==> c.target in j && j[c.target] == s
    ensures Product(k, cs, j, e) ==
            (if cs != [] && Failed(e) then s else e, if Failed(s) then Aborts(cs) else Commits(cs))
  {
    if cs != [] {
      assert cs[0] in cs && forall c :: c in cs[1..] ==> c in cs;
      UniformProduct(k, cs[1..], j, s, if Failed(e) then s else e);
    }
  }

  /** Copy and Rebase: once the completion has occurred, reading gives commits for every
      component and success, or aborts for every component and the first failure. */
  lemma AllOrNothing(k: Kind, cs: seq<Component>, es: seq<Event>)
    requires !k.Commit? && cs != [] && Run(k, cs, es).fired == 1
    ensures Outcome(k, cs, Run(k, cs, es)) ==
            match FirstFailure(k, cs, Start(cs), es)
            case None => (SUCCESS, Commits(cs))
            case Some(f) => (f, Aborts(cs))
  {
    var t, failure := Run(k, cs, es), FirstFailure(k, cs, Start(cs), es);
    CompletionOnce(k, cs, es, []);
    StartSound(cs);
    RunUniform(k, cs, Start(cs), es, None);
    forall c | c in cs ensures c.target in Targets(cs) && c.target in t.journal {
      assert c.target in Targets(cs) - t.pending;
    }
    UniformProduct(k, cs, t.journal, if failure.Some? then failure.value else SUCCESS, UNINITIALIZED);
  }

  /** A reset in whatever state completes an atomic counter, so stopping an activity, which
      resets before it reads, is all or nothing after every run. */
  lemma StopIsAllOrNothing(k: Kind, cs: seq<Component>, es: seq<Event>)
    requires !k.Commit? && cs != []
    ensures var t, failure := Run(k, cs, es + [Reset]), FirstFailure(k, cs, Start(cs), es);
            && t.pending == {} && t.fired == 1
            && Outcome(k, cs, t) ==
               if failure.Some? then (failure.value, Aborts(cs))
               else if Run(k, cs, es).pending != {} then (CANCELED, Aborts(cs))
               else (SUCCESS, Commits(cs))
  {
    var t0 := Run(k, cs, es);
    CompletionOnce(k, cs, es, [Reset]);
    RunAppend(k, cs, Start(cs), es, [Reset]);
    AtomicResetCompletes(k, cs, t0);
    AllOrNothing(k, cs, es + [Reset]);
    FirstFailureAppend(k, cs, Start(cs), es, [Reset]);
  }

  lemma AtomicResetCompletes(k: Kind, cs: seq<Component>, t: Tally)
    requires !k.Commit? && Sound(cs, t)
    ensures RunFrom(k, cs, t, [Reset]).pending == {}
  {
    assert RunFrom(k, cs, t, [Reset]) == Step(k, cs, t, Reset);
    assert Targets(cs) <= Poison(Targets(cs), t.journal, CANCELED).Keys;
  }

  lemma {:induction false} FirstFailureAppend(k: Kind, cs: seq<Component>, t: Tally, a: seq<Event>, b: seq<Event>)
    ensures var f := FirstFailure(k, cs, t, a);
            FirstFailure(k, cs, t, a + b) == if f.Some? then f else FirstFailure(k, cs, RunFrom(k, cs, t, a), b)
    decreases |a|
  {
    if a == [] {
      assert a + b == b;
    } else {
      assert (a + b)[0] == a[0] && (a + b)[1..] == a[1..] + b;
      FirstFailureAppend(k, cs, Step(k, cs, t, a[0]), a[1..], b);
    }
  }

  /** An atomic counter completes once every target has been reported at least once,
      whatever else was reported in between; a failed launch, which reports the failure for
      every component, is one such case. */
  lemma {:induction false} ReportedMeansStruck(k: Kind, cs: seq<Component>, t: Tally, es: seq<Event>,
                                               target: string, v: Code)
    requires !k.Commit? && Sound(cs, t) && Account(target, v) in es
    ensures target !in RunFrom(k, cs, t, es).pending
    decreases |es|
  {
    StepSound(k, cs, t, es[0]);
    if es[0] == Account(target, v) {
      assert target in Targets(cs) ==> target in Journaled(k, cs, t.journal, target, v);
      assert target !in Step(k, cs, t, es[0]).pending;
      RunSound(k, cs, Step(k, cs, t, es[0]), es[1..]);
    } else {
      ReportedMeansStruck(k, cs, Step(k, cs, t, es[0]), es[1..], target, v);
    }
  }

  /** Strategy::Atomic::treat: the reports that follow a launch refused with code `v`. */
  function LaunchRefused(cs: seq<Component>, v: Code): seq<Event> {
    seq(|cs|, i requires 0 <= i < |cs| => Account(cs[i].target, v))
  }

  /** However the refusal's reports interleave with job events, the refused launch ends in
      aborts for everything. */
  lemma RefusedLaunchAborts(k: Kind, cs: seq<Component>, es: seq<Event>, v: Code)
    requires !k.Commit? && cs != [] && Failed(v)
    requires forall c :: c in cs ==> Account(c.target, v) in es
    ensures var t := Run(k, cs, es);
            && t.fired == 1
            && FirstFailure(k, cs, Start(cs), es).Some?
            && Outcome(k, cs, t) == (FirstFailure(k, cs, Start(cs), es).value, Aborts(cs))
  {
    var t := Run(k, cs, es);
    StartSound(cs);
    forall c | c in cs ensures c.target !in t.pending {
      ReportedMeansStruck(k, cs, Start(cs), es, c.target, v);
    }
    CompletionOnce(k, cs, es, []);
    assert es + [] == es;
    assert t.pending == {};
    assert cs[0] in cs;
    FailureFound(k, cs, Start(cs), es, Account(cs[0].target, v));
    AllOrNothing(k, cs, es);
  }

  lemma {:induction false} FailureFound(k: Kind, cs: seq<Component>, t: Tally, es: seq<Event>, e: Event)
    requires e in es && e.Account? && Failed(e.status)
    ensures FirstFailure(k, cs, t, es).Some?
    decreases |es|
  {
    if es[0] != e {
      FailureFound(k, cs, Step(k, cs, t, es[0]), es[1..], e);
    }
  }

  // ---------------------------------------------------------------- the per-disk strategy

  /** The names for which a success was accounted. */
  function Succeeded(es: seq<Event>): set<string> {
    set e | e in es && e.Account? && !Failed(e.status) :: e.name
  }

  ghost predicate MergeSound(cs: seq<Component>, t: Tally, succeeded: set<string>) {
    && Sound(cs, t)
    && t.pending !! t.journal.Keys
    && t.journal.Keys == succeeded
    && forall n :: n in t.journal ==> t.journal[n] == SUCCESS
  }

  lemma StrikeMerge(cs: seq<Component>, t: Tally, before: set<string>, names: set<string>)
    requires Sound(cs, t) && t.pending !! before && t.journal.Keys <= before + names
    requires forall n :: n in t.journal ==> t.journal[n] == SUCCESS
    ensures MergeSound(cs, Strike(t, names), t.journal.Keys)
  {
  }

  lemma AccountMerge(cs: seq<Component>, t: Tally, name: string, v: Code, done: set<string>)
    requires MergeSound(cs, t, done)
    ensures MergeSound(cs, Accounted(Commit, cs, t, name, v), if Failed(v) then done else done + {name})
  {
    var j := Journaled(Commit, cs, t.journal, name, v);
    assert j.Keys == if Failed(v) then done else done + {name};
    StrikeMerge(cs, t.(journal := j), done, if |cs| == |j| then j.Keys else {name});
  }

  lemma StepMerge(cs: seq<Component>, t: Tally, e: Event, done: set<string>)
    requires MergeSound(cs, t, done)
    ensures MergeSound(cs, Step(Commit, cs, t, e), done + Succeeded([e]))
  {
    match e
    case Account(name, v) =>
      assert Succeeded([e]) == if Failed(v) then {} else {name};
      AccountMerge(cs, t, name, v, done);
      assert done + {} == done;
    case Reset =>
      assert Succeeded([e]) == {} && done + {} == done;
      StrikeMerge(cs, t, done, if |cs| == |t.journal| then t.journal.Keys else t.pending);
  }

  lemma SucceededCons(es: seq<Event>)
    requires es != []
    ensures Succeeded(es) == Succeeded([es[0]]) + Succeeded(es[1..])
  {
    assert forall e :: e in es <==> e in [es[0]] || e in es[1..];
  }

  /** `done` and the names that succeed in `es`. */
  function Noted(done: set<string>, es: seq<Event>): set<string>
    decreases |es|
  {
    if es == [] then done else Noted(done + Succeeded([es[0]]), es[1..])
  }

  lemma {:induction false} NotedAll(done: set<string>, es: seq<Event>)
    ensures Noted(done, es) == done + Succeeded(es)
    decreases |es|
  {
    if es != [] {
      SucceededCons(es);
      NotedAll(done + Succeeded([es[0]]), es[1..]);
    }
  }

  lemma {:induction false} RunMerge(cs: seq<Component>, t: Tally, es: seq<Event>, done: set<string>)
    requires MergeSound(cs, t, done)
    ensures MergeSound(cs, RunFrom(Commit, cs, t, es), Noted(done, es))
    decreases |es|
  {
    if es != [] {
      StepMerge(cs, t, es[0], done);
      RunMerge(cs, Step(Commit, cs, t, es[0]), es[1..], done + Succeeded([es[0]]));
    }
  }

  lemma MergeReachable(cs: seq<Component>, es: seq<Event>)
    ensures MergeSound(cs, Run(Commit, cs, es), Succeeded(es))
  {
    StartSound(cs);
    RunMerge(cs, Start(cs), es, {});
    NotedAll({}, es);
  }

  /** Finish then sweep, for the listed components whose target is in `done`. */
  function Merged(cs: seq<Component>, done: set<string>): seq<Action> {
    if cs == [] then []
    else (if cs[0].target in done then [Finish(cs[0].target), Sweep(cs[0].image)] else []) + Merged(cs[1..], done)
  }

  ghost predicate AnyIn(cs: seq<Component>, names: set<string>) {
    exists c :: c in cs && c.target in names
  }

  lemma {:induction false} MergeProduct(cs: seq<Component>, j: map<string, Code>, e: Code)
    requires forall n :: n in j ==> j[n] == SUCCESS
    requires e == SUCCESS || e == UNINITIALIZED
    ensures Product(Commit, cs, j, e) == (if AnyIn(cs, j.Keys) then SUCCESS else e, Merged(cs, j.Keys))
  {
    if cs != [] {
      MergeProduct(cs[1..], j, if cs[0].target in j then SUCCESS else e);
      assert forall c :: c in cs <==> c == cs[0] || c in cs[1..];
      assert AnyIn(cs, j.Keys) <==> cs[0].target in j.Keys || AnyIn(cs[1..], j.Keys);
      assert [] + Merged(cs[1..], j.Keys) == Merged(cs[1..], j.Keys);
    }
  }

  /** Whatever the journal holds, a merge does nothing about a disk that failed. */
  lemma {:induction false} MergeIgnoresFailures(cs: seq<Component>, j: map<string, Code>, e: Code)
    ensures Product(Commit, cs, j, e).1 == Merged(cs, set n | n in j && !Failed(j[n]))
  {
    if cs != [] {
      var t := cs[0].target;
      MergeIgnoresFailures(cs[1..], j, if t in j && Failed(e) then j[t] else e);
      assert [] + Merged(cs[1..], set n | n in j && !Failed(j[n])) == Merged(cs[1..], set n | n in j && !Failed(j[n]));
    }
  }

  /** Merge is per disk: after every run exactly the components with an accounted success
      are finished and then swept, and the code is success iff there is one. */
  lemma MergePerDisk(cs: seq<Component>, es: seq<Event>)
    ensures Outcome(Commit, cs, Run(Commit, cs, es)) ==
            (if AnyIn(cs, Succeeded(es)) then SUCCESS else UNINITIALIZED, Merged(cs, Succeeded(es)))
  {
    MergeReachable(cs, es);
    MergeProduct(cs, Run(Commit, cs, es).journal, UNINITIALIZED);
  }

  /** A merge is not always completed by a reset. It is, exactly unless something is pending
      while the journal has as many names as the request has components: then only journaled
      names are struck, and no pending name is journaled. */
  lemma MergeResetCompletes(cs: seq<Component>, es: seq<Event>)
    ensures var t := Run(Commit, cs, es);
            && (Run(Commit, cs, es + [Reset]).pending == {} <==> t.pending == {} || |t.journal| != |cs|)
            && Run(Commit, cs, es + [Reset]).pending == if |t.journal| == |cs| then t.pending else {}
  {
    var t := Run(Commit, cs, es);
    MergeReachable(cs, es);
    RunAppend(Commit, cs, Start(cs), es, [Reset]);
    assert RunFrom(Commit, cs, t, [Reset]) == Step(Commit, cs, t, Reset);
    if t.pending != {} && |t.journal| == |cs| {
      assert t.pending - t.journal.Keys == t.pending;
    }
  }

  /** The same guard decides whether the failure of a disk is noticed; a success always is,
      and a report never concerns another disk. */
  lemma MergeFailureNoticed(cs: seq<Component>, es: seq<Event>, name: string, v: Code)
    ensures var t := Run(Commit, cs, es);
            Run(Commit, cs, es + [Account(name, v)]).pending ==
            if Failed(v) && |t.journal| == |cs| then t.pending else t.pending - {name}
  {
    var t, e := Run(Commit, cs, es), Account(name, v);
    MergeReachable(cs, es);
    RunAppend(Commit, cs, Start(cs), es, [e]);
    assert RunFrom(Commit, cs, t, [e]) == Step(Commit, cs, t, e);
  }

  /** Two disks, one of them merged, and the success of a third that was not asked for:
      the cancelled second disk stays pending and the completion does not occur. */
  lemma MergeResetStuck(a: Component, b: Component, stranger: string)
    requires a.target != b.target && a.target != stranger && b.target != stranger
    ensures var t := Run(Commit, [a, b], [Account(stranger, SUCCESS), Account(a.target, SUCCESS)] + [Reset]);
            t.pending == {b.target} && t.fired == 0
  {
    var cs, es := [a, b], [Account(stranger, SUCCESS), Account(a.target, SUCCESS)];
    var t1 := Step(Commit, cs, Start(cs), es[0]);
    var t2 := Step(Commit, cs, t1, es[1]);
    TwoTargets(a, b);
    StrangerFirst(a, b, stranger);
    assert t2.journal.Keys == {stranger, a.target};
    PairSize(stranger, a.target);
    assert |t2.journal| == |t2.journal.Keys|;
    assert es == [es[0]] + [es[1]];
    RunAppend(Commit, cs, Start(cs), [es[0]], [es[1]]);
    MergeResetCompletes(cs, es);
    CompletionOnce(Commit, cs, es, [Reset]);
  }

  lemma StrangerFirst(a: Component, b: Component, stranger: string)
    requires a.target != b.target && a.target != stranger && b.target != stranger
    ensures var t := Step(Commit, [a, b], Start([a, b]), Account(stranger, SUCCESS));
            t == Tally({a.target, b.target}, map[stranger := SUCCESS], 0)
  {
    TwoTargets(a, b);
  }

  lemma PairSize(x: string, y: string)
    requires x != y
    ensures |{x, y}| == 2
  {
  }

  lemma TwoTargets(a: Component, b: Component)
    ensures Targets([a, b]) == {a.target, b.target}
  {
    assert [a, b][0] == a && [a, b][1] == b;
  }

  /** As long as only requested disks report, a reset completes the merge as well. */
  lemma MergeKnownNamesComplete(cs: seq<Component>, es: seq<Event>)
    requires Succeeded(es) <= Targets(cs)
    ensures Run(Commit, cs, es + [Reset]).pending == {}
  {
    MergeReachable(cs, es);
    MergeResetCompletes(cs, es);
    var t := Run(Commit, cs, es);
    FewTargets(cs);
    if |t.journal| == |cs| {
      assert |t.journal.Keys| == |t.journal|;
      Contained(t.journal.Keys, Targets(cs));
    }
  }

  lemma {:induction false} FewTargets(cs: seq<Component>)
    ensures |Targets(cs)| <= |cs|
  {
    if cs != [] {
      FewTargets(cs[1..]);
      assert cs == [cs[0]] + cs[1..];
      assert Targets(cs) == {cs[0].target} + Targets(cs[1..]);
    }
  }

  lemma Contained(a: set<string>, b: set<string>)
    requires a <= b && |a| >= |b|
    ensures a == b
  {
    assert |b - a| == |b| - |a|;
  }
}
