/** Block jobs: the counter that collects per-disk job events, the strategies that
    journal them, and the batch of commits or aborts that is read at the end.

    `Account`, `Reset` and `Read` are serialised on one thread, so a run is a sequence
    of events. Events may repeat and may name disks nobody asked about. */
module BlockJobs {
  import opened Results

  /** One disk of the request: the libvirt target name and the image file behind it. */
  datatype Component = Component(target: string, image: string)

  /** Copy and Rebase share the atomic strategy; Commit (merge) is per disk. */
  datatype Kind = Copy | Rebase | Commit

  datatype Action = Finish(target: string) | Abort(target: string) | Sweep(image: string)

  /** The mutable part of a meter: `fired` counts the calls of Completion::occur. */
  datatype Tally = Tally(pending: set<string>, journal: map<string, Code>, fired: nat)

  datatype Event = Account(name: string, status: Code) | Reset

  function Targets(cs: seq<Component>): set<string> {
    set c | c in cs :: c.target
  }

  // ---------------------------------------------------------------- specification

  /** The journal after one status report. */
  function Journaled(k: Kind, cs: seq<Component>, j: map<string, Code>, name: string, v: Code): map<string, Code> {
    if !Failed(v) then
      if k.Commit? || name !in j then j[name := SUCCESS] else j
    else if k.Commit? then
      j
    else
      Poison(Targets(cs), j, v)
  }

  /** Every target that is pending or successful becomes failed with `v`. */
  function Poison(targets: set<string>, j: map<string, Code>, v: Code): map<string, Code> {
    map t | t in j.Keys + targets :: if t in targets && (t !in j || !Failed(j[t])) then v else j[t]
  }

  /** Takes names off the pending set; the completion occurs when it becomes empty. */
  function Strike(t: Tally, names: set<string>): Tally {
    var rest := t.pending - names;
    t.(pending := rest, fired := t.fired + if t.pending != {} && rest == {} then 1 else 0)
  }

  function Accounted(k: Kind, cs: seq<Component>, t: Tally, name: string, v: Code): Tally {
    var j := Journaled(k, cs, t.journal, name, v);
    Strike(t.(journal := j), if |cs| == |j| then j.Keys else {name})
  }

  /** What is left after cancelling every pending name, in whatever order. */
  function Cancelled(k: Kind, cs: seq<Component>, t: Tally): Tally {
    if t.pending == {} then
      t
    else
      var j := Journaled(k, cs, t.journal, "", CANCELED);
      Strike(t.(journal := j), if |cs| == |j| then j.Keys else t.pending)
  }

  function Step(k: Kind, cs: seq<Component>, t: Tally, e: Event): Tally {
    match e
    case Account(name, v) => Accounted(k, cs, t, name, v)
    case Reset => Cancelled(k, cs, t)
  }

  function Start(cs: seq<Component>): Tally {
    Tally(Targets(cs), map[], if cs == [] then 1 else 0)
  }

  function RunFrom(k: Kind, cs: seq<Component>, t: Tally, es: seq<Event>): Tally
    decreases |es|
  {
    if es == [] then t else RunFrom(k, cs, Step(k, cs, t, es[0]), es[1..])
  }

  function Run(k: Kind, cs: seq<Component>, es: seq<Event>): Tally {
    RunFrom(k, cs, Start(cs), es)
  }

  function Connect(k: Kind, c: Component, status: Code): seq<Action> {
    if k.Commit? then
      if Failed(status) then [] else [Finish(c.target), Sweep(c.image)]
    else
      if Failed(status) then [Abort(c.target)] else [Finish(c.target)]
  }

  /** The result code and the batch that `read_` builds, starting from code `e`. */
  function Product(k: Kind, cs: seq<Component>, j: map<string, Code>, e: Code): (Code, seq<Action>) {
    if cs == [] then
      (e, [])
    else if cs[0].target !in j then
      Product(k, cs[1..], j, e)
    else
      var s := j[cs[0].target];
      var rest := Product(k, cs[1..], j, if Failed(e) then s else e);
      (rest.0, Connect(k, cs[0], s) + rest.1)
  }

  function Outcome(k: Kind, cs: seq<Component>, t: Tally): (Code, seq<Action>) {
    Product(k, cs, t.journal, UNINITIALIZED)
  }

  // ---------------------------------------------------------------- implementation

  class Completion {
    var fired: nat

    constructor ()
      ensures fired == 0
    {
      fired := 0;
    }

    method Occur()
      modifies this
      ensures fired == old(fired) + 1
    {
      fired := fired + 1;
    }
  }

  class Meter {
    const kind: Kind
    const components: seq<Component>
    const receiver: Completion
    var pending: set<string>
    var journal: map<string, Code>

    ghost function View(): Tally
      reads this, receiver
    {
      Tally(pending, journal, receiver.fired)
    }

    constructor (kind: Kind, components: seq<Component>, receiver: Completion)
      requires receiver.fired == 0
      modifies receiver
      ensures this.kind == kind && this.components == components && this.receiver == receiver
      ensures View() == Start(components)
    {
      this.kind := kind;
      this.components := components;
      this.receiver := receiver;
      this.journal := map[];
      var p: set<string> := {};
      for i := 0 to |components|
        invariant p == Targets(components[..i])
      {
        assert components[..i + 1] == components[..i] + [components[i]];
        p := p + {components[i].target};
      }
      assert components[..|components|] == components;
      this.pending := p;
      new;
      if pending == {} {
        assert components != [] ==> components[0].target in pending;
        receiver.Occur();
      } else {
        assert components != [];
      }
    }

    /** Counter::account__ */
    method AccountOne(name: string)
      modifies this`pending, receiver
      ensures View() == Strike(old(View()), {name})
    {
      if name !in pending {
        assert pending - {name} == pending;
        return;
      }
      pending := pending - {name};
      if pending == {} {
        receiver.Occur();
      }
    }

    method SetStatus(name: string, value: Code)
      modifies this`journal
      ensures journal == Journaled(kind, components, old(journal), name, value)
    {
      if !Failed(value) {
        if kind.Commit? || name !in journal {
          journal := journal[name := SUCCESS];
        }
        return;
      }
      if kind.Commit? {
        return;
      }
      ghost var j := journal;
      assert j == Poison({}, j, value);
      for i := 0 to |components|
        invariant journal == Poison(Targets(components[..i]), j, value)
      {
        var t := components[i].target;
        TargetsNext(components, i);
        PoisonNext(Targets(components[..i]), j, t, value);
        if t !in journal || !Failed(journal[t]) {
          journal := journal[t := value];
        }
      }
      assert components[..|components|] == components;
    }

    /** Meter::account_ */
    method Account(name: string, status: Code)
      modifies this, receiver
      ensures View() == Accounted(kind, components, old(View()), name, status)
    {
      SetStatus(name, status);
      if |components| == |journal| {
        var keys := journal.Keys;
        ghost var t := View();
        ghost var done: set<string> := {};
        StrikeNone(t);
        while keys != {}
          invariant keys + done == t.journal.Keys
          invariant journal == t.journal && View() == Strike(t, done)
          decreases keys
        {
          var key :| key in keys;
          AccountOne(key);
          StrikeTwice(t, done, {key});
          keys, done := keys - {key}, done + {key};
        }
        assert done == t.journal.Keys;
      } else {
        AccountOne(name);
      }
    }

    /** Counter::reset_: walks a copy while Account changes the original. */
    method ResetPending()
      modifies this, receiver
      ensures View() == Cancelled(kind, components, old(View()))
    {
      if pending == {} {
        return;
      }
      var rest := pending;
      ghost var t := View();
      ghost var c := t.(journal := Journaled(kind, components, journal, "", CANCELED));
      ghost var whole := |components| == |c.journal|;
      ghost var done: set<string> := {};
      CancelAgain(kind, components, journal);
      while rest != {}
        invariant rest + done == t.pending && rest !! done
        invariant View() == if done == {} then t else Strike(c, if whole then c.journal.Keys else done)
        decreases rest
      {
        var b :| b in rest;
        ghost var struck := if whole then c.journal.Keys else {b};
        assert Accounted(kind, components, t, b, CANCELED) == Strike(c, struck);
        if done != {} {
          StrikeTwice(c, if whole then c.journal.Keys else done, struck);
        }
        Account(b, CANCELED);
        rest, done := rest - {b}, done + {b};
      }
      assert done == t.pending;
    }

    /** Meter::read_ */
    method Read() returns (e: Code, batch: seq<Action>)
      ensures e == Outcome(kind, components, View()).0 && batch == Outcome(kind, components, View()).1
    {
      e := UNINITIALIZED;
      batch := [];
      assert components[0..] == components;
      for i := 0 to |components|
        invariant Outcome(kind, components, View()).0 == Product(kind, components[i..], journal, e).0
        invariant Outcome(kind, components, View()).1 == batch + Product(kind, components[i..], journal, e).1
      {
        var c := components[i];
        assert components[i..][0] == c && components[i..][1..] == components[i + 1..];
        if c.target in journal {
          var s := journal[c.target];
          if Failed(e) {
            e := s;
          }
          batch := batch + Connect(kind, c, s);
        }
      }
    }
  }

  lemma TargetsNext(cs: seq<Component>, i: nat)
    requires i < |cs|
    ensures Targets(cs[..i + 1]) == Targets(cs[..i]) + {cs[i].target}
  {
    assert cs[..i + 1] == cs[..i] + [cs[i]];
  }

  lemma PoisonNext(targets: set<string>, j: map<string, Code>, t: string, v: Code)
    requires Failed(v)
    ensures var p := Poison(targets, j, v);
            Poison(targets + {t}, j, v) == if t !in p || !Failed(p[t]) then p[t := v] else p
  {
  }

  lemma StrikeNone(t: Tally)
    ensures Strike(t, {}) == t
  {
    assert t.pending - {} == t.pending;
  }

  lemma StrikeTwice(t: Tally, a: set<string>, b: set<string>)
    ensures Strike(Strike(t, a), b) == Strike(t, a + b)
  {
    assert t.pending - a - b == t.pending - (a + b);
  }

  /** Cancelling is the same for every name, and a second time changes nothing. */
  lemma CancelAgain(k: Kind, cs: seq<Component>, j: map<string, Code>)
    ensures var c := Journaled(k, cs, j, "", CANCELED);
            forall name :: Journaled(k, cs, c, name, CANCELED) == c && Journaled(k, cs, j, name, CANCELED) == c
  {
    var c := Journaled(k, cs, j, "", CANCELED);
    if !k.Commit? {
      assert Poison(Targets(cs), c, CANCELED) == c;
    }
  }
}
