/** Starting and stopping a block-job activity: the launcher's loop, the tracker's two event
    registrations, and what stopping returns. */
module BlockActivity {
  import opened Results
  import opened BlockJobs
  import opened BlockJobOutcomes

  /** The connection: which registered callbacks are alive and the counter each one serves. */
  class Link {
    var live: map<int, Meter>

    constructor ()
      ensures live == map[]
    {
      live := map[];
    }

    /** The connection issues the number of a new callback, or refuses with -1. */
    method Register(meter: Meter, issued: Option<nat>) returns (ticket: int)
      requires issued.Some? ==> issued.value !in live
      modifies this
      ensures issued.None? ==> ticket == -1 && live == old(live)
      ensures issued.Some? ==> ticket == issued.value && live == old(live)[ticket := meter]
    {
      if issued.None? {
        return -1;
      }
      ticket := issued.value;
      live := live[ticket := meter];
    }

    /** Frees the callback, which resets its counter; an unknown ticket does nothing. The
        reset is taken to be done when the call returns. */
    method Deregister(ticket: int, meter: Meter)
      requires ticket in live ==> live[ticket] == meter
      modifies this, meter, meter.receiver
      ensures live == old(live) - {ticket}
      ensures meter.View() == if ticket in old(live) then Cancelled(meter.kind, meter.components, old(meter.View()))
                              else old(meter.View())
    {
      if ticket in live {
        live := live - {ticket};
        meter.ResetPending();
      } else {
        assert live - {ticket} == live;
      }
    }
  }

  class Tracker {
    const link: Link
    const attached: bool
    var ticket: int
    var ticket2: int
    var counter: Meter?

    constructor (link: Link, attached: bool)
      ensures this.link == link && this.attached == attached && Idle()
    {
      this.link, this.attached := link, attached;
      ticket, ticket2, counter := -1, -1, null;
    }

    ghost predicate Idle()
      reads this
    {
      ticket == -1 && ticket2 == -1
    }

    /** Both registrations are alive and serve `meter`. */
    ghost predicate Watching(meter: Meter)
      reads this, link
    {
      && attached && counter == meter
      && 0 <= ticket && 0 <= ticket2 && ticket != ticket2
      && ticket in link.live && ticket2 in link.live
      && link.live[ticket] == meter && link.live[ticket2] == meter
    }

    method Start(meter: Meter?, issued: Option<nat>, issued2: Option<nat>) returns (code: Code)
      requires -1 !in link.live && (issued.Some? ==> issued.value !in link.live)
      requires issued2.Some? ==> issued2.value !in link.live && issued2 != issued
      modifies this, link, meter, if meter != null then {meter.receiver} else {}
      ensures code == SUCCESS <==> meter != null && attached && old(Idle()) && issued.Some? && issued2.Some?
      ensures meter == null <==> code == INVALID_ARG
      ensures meter != null && !(attached && old(Idle())) <==> code == INVALID_HANDLE
      ensures code == SUCCESS || code == INVALID_ARG || code == INVALID_HANDLE || code == FAILURE
      ensures code != SUCCESS ==> link.live == old(link.live) && counter == old(counter)
      ensures code != SUCCESS && old(Idle()) ==> Idle()
      ensures code == SUCCESS ==> Watching(meter)
      ensures meter != null ==>
                meter.View() == if attached && old(Idle()) && issued.Some? && issued2.None?
                                then Cancelled(meter.kind, meter.components, old(meter.View())) else old(meter.View())
      ensures code == SUCCESS ==> link.live == old(link.live)[ticket := meter][ticket2 := meter]
    {
      if meter == null {
        return INVALID_ARG;
      }
      if !attached || !(ticket == -1 && ticket2 == -1) {
        return INVALID_HANDLE;
      }
      ticket := link.Register(meter, issued);
      if ticket == -1 {
        return FAILURE;
      }
      ticket2 := link.Register(meter, issued2);
      if ticket2 == -1 {
        // Tracker::stop without a counter to read.
        TakenBack(old(link.live), ticket, meter);
        Release(meter);
        return FAILURE;
      }
      counter := meter;
      return SUCCESS;
    }

    /** Both tickets are given back. */
    method Release(meter: Meter)
      requires ticket in link.live && link.live[ticket] == meter
      requires ticket2 in link.live ==> link.live[ticket2] == meter
      modifies this`ticket, this`ticket2, link, meter, meter.receiver
      ensures Idle() && link.live == old(link.live) - {old(ticket)} - {old(ticket2)}
      ensures meter.View() == Cancelled(meter.kind, meter.components, old(meter.View()))
    {
      CancelledTwice(meter.kind, meter.components, meter.View());
      link.Deregister(ticket, meter);
      ticket := -1;
      link.Deregister(ticket2, meter);
      ticket2 := -1;
    }

    /** The product is what the counter gives after a reset. */
    method Stop(meter: Meter) returns (code: Code, product: (Code, seq<Action>))
      requires Idle() || Watching(meter)
      modifies this, link, meter, meter.receiver
      ensures Idle()
      ensures old(Idle()) ==> code == INVALID_HANDLE && link.live == old(link.live) && meter.View() == old(meter.View())
      ensures !old(Idle()) ==>
                && code == SUCCESS && counter == null
                && link.live == old(link.live) - {old(ticket)} - {old(ticket2)}
                && meter.View() == Cancelled(meter.kind, meter.components, old(meter.View()))
                && product == Outcome(meter.kind, meter.components, meter.View())
    {
      product := (UNINITIALIZED, []);
      if ticket == -1 && ticket2 == -1 {
        return INVALID_HANDLE, product;
      }
      Release(meter);
      var e, batch := meter.Read();
      counter := null;
      return SUCCESS, (e, batch);
    }
  }

  lemma TakenBack(live: map<int, Meter>, ticket: int, meter: Meter)
    requires ticket !in live && -1 !in live
    ensures live[ticket := meter] - {ticket} - {-1} == live
  {
  }

  /** The second callback's reset finds nothing more to do. */
  lemma CancelledTwice(k: Kind, cs: seq<Component>, t: Tally)
    ensures Cancelled(k, cs, Cancelled(k, cs, t)) == Cancelled(k, cs, t)
  {
    var c := Cancelled(k, cs, t);
    CancelAgain(k, cs, t.journal);
    if t.pending != {} && c.pending != {} {
      assert |cs| == |c.journal| && c.pending - c.journal.Keys == c.pending;
    }
  }

  // ---------------------------------------------------------------- launching

  /** One report for each refused launch, with its code. */
  function Refusals(cs: seq<Component>, results: seq<Code>): seq<Event>
    requires |results| == |cs|
    decreases |cs|
  {
    if cs == [] then []
    else
      var n := |cs| - 1;
      Refusals(cs[..n], results[..n]) + if Failed(results[n]) then [Account(cs[n].target, results[n])] else []
  }

  /** What the launches' `results` make of the loop: `posted` are the reports sent to the
      counter, `launched` how many launches were made. */
  ghost predicate Launched(k: Kind, cs: seq<Component>, results: seq<Code>, posted: seq<Event>, launched: nat)
    requires |results| == |cs|
  {
    if k.Commit? then
      launched == |cs| && posted == Refusals(cs, results)
    else if exists i :: 0 <= i < |cs| && Failed(results[i]) then
      && 0 < launched <= |cs| && Failed(results[launched - 1])
      && (forall i :: 0 <= i < launched - 1 ==> !Failed(results[i]))
      && |posted| == |cs|
      && forall i :: 0 <= i < |cs| ==> posted[i] == Account(cs[i].target, results[launched - 1])
    else
      posted == [] && launched == |cs|
  }

  /** The loop of Launcher::start. */
  method Launch(k: Kind, cs: seq<Component>, results: seq<Code>) returns (posted: seq<Event>, launched: nat)
    requires |results| == |cs|
    ensures Launched(k, cs, results, posted, launched)
  {
    posted, launched := [], 0;
    while launched < |cs|
      invariant launched <= |cs|
      invariant !k.Commit? ==> posted == [] && forall i :: 0 <= i < launched ==> !Failed(results[i])
      invariant k.Commit? ==> posted == Refusals(cs[..launched], results[..launched])
    {
      assert cs[..launched + 1][..launched] == cs[..launched];
      assert results[..launched + 1][..launched] == results[..launched];
      var code := results[launched];
      launched := launched + 1;
      if Failed(code) {
        if !k.Commit? {
          posted := LaunchRefused(cs, code);
          return;
        }
        posted := posted + [Account(cs[launched - 1].target, code)];
      }
    }
    assert cs[..|cs|] == cs && results[..|cs|] == results;
  }

  /** Only the first of the two registrations succeeds. */
  predicate HalfRegistered(attached: bool, issued: Option<nat>, issued2: Option<nat>) {
    attached && issued.Some? && issued2.None?
  }

  /** A reset of a new counter completes it, whatever the strategy and the list. */
  lemma CancelledAtStart(k: Kind, cs: seq<Component>)
    ensures Cancelled(k, cs, Start(cs)).pending == {}
    ensures Cancelled(k, cs, Start(cs)).fired == 1
  {
    if cs == [] {
      assert Targets(cs) == {};
    } else {
      assert cs[0].target in Targets(cs);
      var j := Journaled(k, cs, map[], "", CANCELED);
      assert j.Keys == if k.Commit? then {} else Targets(cs);
    }
  }

  /** Launcher::start. What the tracker says is ignored: the jobs are launched all the same,
      and without both registrations the tracker stays idle. */
  method StartActivity(link: Link, attached: bool, k: Kind, cs: seq<Component>, receiver: Completion,
                       issued: Option<nat>, issued2: Option<nat>, results: seq<Code>)
    returns (tracker: Tracker, meter: Meter, posted: seq<Event>, launched: nat)
    requires receiver.fired == 0 && |results| == |cs|
    requires -1 !in link.live && (issued.Some? ==> issued.value !in link.live)
    requires issued2.Some? ==> issued2.value !in link.live && issued2 != issued
    modifies link, receiver
    ensures fresh(tracker) && fresh(meter) && tracker.link == link
    ensures meter.kind == k && meter.components == cs && meter.receiver == receiver
    ensures Launched(k, cs, results, posted, launched)
    ensures attached && issued.Some? && issued2.Some? ==> tracker.Watching(meter)
    ensures !(attached && issued.Some? && issued2.Some?) ==> tracker.Idle() && link.live == old(link.live)
    ensures meter.View() == if HalfRegistered(attached, issued, issued2) then Cancelled(k, cs, Start(cs)) else Start(cs)
  {
    meter := new Meter(k, cs, receiver);
    tracker := new Tracker(link, attached);
    var _ := tracker.Start(meter, issued, issued2);
    posted, launched := Launch(k, cs, results);
  }

  // ---------------------------------------------------------------- a whole activity

  /** Activity::stop: the batch is performed and the code returned, or nothing is performed. */
  method StopActivity(tracker: Tracker?, meter: Meter) returns (code: Code, performed: seq<Action>)
    requires tracker != null ==> tracker.Idle() || tracker.Watching(meter)
    modifies tracker, if tracker != null then {tracker.link} else {}, meter, meter.receiver
    ensures tracker == null ==> code == UNINITIALIZED && performed == []
    ensures tracker != null && old(tracker.Idle()) ==>
              code == INVALID_HANDLE && performed == [] && tracker.link.live == old(tracker.link.live)
    ensures tracker == null || old(tracker.Idle()) ==> meter.View() == old(meter.View())
    ensures tracker != null && !old(tracker.Idle()) ==>
              && meter.View() == Cancelled(meter.kind, meter.components, old(meter.View()))
              && (code, performed) == Outcome(meter.kind, meter.components, meter.View())
  {
    if tracker == null {
      return UNINITIALIZED, [];
    }
    var e, product := tracker.Stop(meter);
    if Failed(e) {
      return e, [];
    }
    return product.0, product.1;
  }

  /** Copy and Rebase from start to stop: whatever run of events the counter has seen, stopping
      commits every disk and succeeds, or aborts every disk with the first failure, or with a
      cancellation if jobs were still pending. */
  method WatchedActivity(tracker: Tracker, meter: Meter, ghost es: seq<Event>)
    returns (code: Code, performed: seq<Action>)
    requires tracker.Watching(meter) && !meter.kind.Commit? && meter.components != []
    requires meter.View() == Run(meter.kind, meter.components, es)
    modifies tracker, tracker.link, meter, meter.receiver
    ensures meter.receiver.fired == 1
    ensures var first := FirstFailure(meter.kind, meter.components, Start(meter.components), es);
            (code, performed) ==
            if first.Some? then (first.value, Aborts(meter.components))
            else if Run(meter.kind, meter.components, es).pending != {} then (CANCELED, Aborts(meter.components))
            else (SUCCESS, Commits(meter.components))
  {
    var k, cs := meter.kind, meter.components;
    StopIsAllOrNothing(k, cs, es);
    RunAppend(k, cs, Start(cs), es, [Reset]);
    assert RunFrom(k, cs, Run(k, cs, es), [Reset]) == Cancelled(k, cs, Run(k, cs, es));
    code, performed := StopActivity(tracker, meter);
  }

  /** Without both registrations an activity that has launched its jobs performs nothing when
      it is stopped: no job is committed and none is aborted. After half a registration its
      completion has occurred all the same. */
  method UnwatchedActivity(link: Link, attached: bool, k: Kind, cs: seq<Component>, receiver: Completion,
                           issued: Option<nat>, issued2: Option<nat>, results: seq<Code>)
    returns (launched: nat, code: Code, performed: seq<Action>)
    requires receiver.fired == 0 && |results| == |cs|
    requires -1 !in link.live && (issued.Some? ==> issued.value !in link.live)
    requires issued2.Some? ==> issued2.value !in link.live && issued2 != issued
    requires !(attached && issued.Some? && issued2.Some?)
    modifies link, receiver
    ensures receiver.fired == if cs == [] || HalfRegistered(attached, issued, issued2) then 1 else 0
    ensures exists posted :: Launched(k, cs, results, posted, launched)
    ensures code == INVALID_HANDLE && performed == [] && link.live == old(link.live)
  {
    var tracker, meter, posted;
    tracker, meter, posted, launched := StartActivity(link, attached, k, cs, receiver, issued, issued2, results);
    code, performed := StopActivity(tracker, meter);
    CancelledAtStart(k, cs);
  }
}
