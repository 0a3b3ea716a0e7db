/** The domain map over the registry, and the start-up reconciliation with libvirt. */
module Breeding {
  import opened Results
  import opened Registry
  import opened RegistryRuns
  import R = Reactions

  class System {
    const registry: Actual
    var domainMap: map<string, R.Demonstrator>

    constructor (registry: Actual)
      ensures this.registry == registry && domainMap == map[]
    {
      this.registry := registry;
      domainMap := map[];
    }

    method Add(u: string) returns (entry: R.Demonstrator?)
      requires registry.Valid()
      modifies this, registry
      ensures registry.Valid() && registry.dropped == old(registry.dropped)
      ensures u == "" || u in old(domainMap) ==>
                entry == null && domainMap == old(domainMap) && registry.View() == old(registry.View())
      ensures u != "" && u !in old(domainMap) ==>
                && registry.undeclared == old(registry.undeclared) && registry.booking == old(registry.booking) - {u}
                && (entry != null <==> Addable(registry, old(registry.View()), u))
                && registry.defined.Keys == old(registry.defined).Keys + (if entry != null then {u} else {})
                && (forall v :: v in old(registry.defined) ==> registry.defined[v] == old(registry.defined)[v])
                && (entry != null && u in old(registry.booking) && old(registry.booking)[u].Kept? ==>
                      registry.defined[u] == old(registry.booking)[u].vm)
      ensures entry == null ==> domainMap == old(domainMap)
      ensures entry != null ==> fresh(entry) && domainMap == old(domainMap)[u := entry] &&
                                entry.View() == R.EMPTY && entry.last == R.Unknown
    {
      if u == "" || u in domainMap {
        return null;
      }
      var code;
      ghost var created;
      code, created := registry.Define(u);
      if Failed(code) {
        return null;
      }
      var x := new R.Demonstrator();
      domainMap := domainMap[u := x];
      entry := x;
    }

    method Find(u: string) returns (entry: R.Demonstrator?)
      ensures entry == if u in domainMap then domainMap[u] else null
    {
      entry := if u in domainMap then domainMap[u] else null;
    }

    /** The machine's last reaction takes it out of the registry: it is shown after a change
        to the unknown state, hence after everything shown before. */
    method Remove(u: string)
      modifies this`domainMap, set x | x in domainMap :: domainMap[x]
      ensures domainMap == old(domainMap) - {u}
      ensures u in old(domainMap) ==>
                var x := old(domainMap)[u];
                x.last == R.Unknown && x.View() == Retired(old(x.View()), old(x.last), u)
      ensures forall x :: x in old(domainMap).Values && (u !in old(domainMap) || x != old(domainMap)[u]) ==>
                            unchanged(x)
    {
      if u !in domainMap {
        assert domainMap - {u} == domainMap;
        return;
      }
      var x := domainMap[u];
      x.SetState(R.Unknown);
      x.Show(R.Undefine(u));
      domainMap := domainMap - {u};
    }
  }

  /** The entry of `u` that has been told the unknown state. */
  function Parted(b: R.Board, last: R.VmState): R.Board {
    if last == R.Unknown then b else R.Next(b, R.Show(R.State(R.Unknown), None))
  }

  /** ... and then to take itself out of the registry. */
  function Retired(b: R.Board, last: R.VmState, u: string): R.Board {
    R.Next(Parted(b, last), R.Show(R.Undefine(u), None))
  }

  /** In every run of an entry, whatever follows its removal from the domain map: it leaves
      the registry only after everything shown before has finished, in order, and after the
      change to the unknown state; nothing shown later overtakes it. */
  lemma UndefineInTurn(before: seq<R.Step>, last: R.VmState, u: string, after: seq<R.Step>)
    requires R.Valid(R.EMPTY, before) && R.Valid(Retired(R.Run(R.EMPTY, before), last, u), after)
    ensures var b := Parted(R.Run(R.EMPTY, before), last);
            var later := R.Run(Retired(R.Run(R.EMPTY, before), last, u), after);
            && R.Run(R.EMPTY, before).shown <= b.shown
            && (last != R.Unknown ==> b.shown == R.Run(R.EMPTY, before).shown + [R.State(R.Unknown)])
            && (later.finished <= b.shown || b.shown + [R.Undefine(u)] <= later.finished)
            && forall i :: 0 <= i < |later.runners| && later.runners[i].Executing? && |later.finished| == |b.shown| ==>
                  later.finished == b.shown && later.runners[i].reaction == R.Undefine(u)
  {
    R.RunGood(R.EMPTY, before);
    if last != R.Unknown {
      R.StepGood(R.Run(R.EMPTY, before), R.Show(R.State(R.Unknown), None));
    }
    R.FinishesInTurn(Parted(R.Run(R.EMPTY, before), last), R.Undefine(u), after);
  }

  /** A definition of `u` succeeds in these maps. */
  ghost predicate Addable(registry: Actual, m: Maps, u: string) {
    u != "" && u !in m.defined && u !in m.undeclared && registry.Definable(m, u)
  }

  /** Which of `us` the registry can define after a reset has left `m`. */
  ghost function Survivors(registry: Actual, m: Maps, us: set<string>): set<string> {
    set u | u in us && Addable(registry, m, u)
  }

  function Without(s: seq<string>, u: string): seq<string> {
    if s == [] then [] else if s[0] == u then s[1..] else [s[0]] + Without(s[1..], u)
  }

  ghost predicate Enumerates(s: seq<string>, us: set<string>) {
    (forall u :: u in s <==> u in us) && forall i, j :: 0 <= i < j < |s| ==> s[i] != s[j]
  }

  lemma {:induction false} WithoutEnumerates(s: seq<string>, us: set<string>, u: string)
    requires Enumerates(s, us)
    ensures Enumerates(Without(s, u), us - {u})
  {
    if s != [] {
      assert forall v :: v in s <==> v == s[0] || v in s[1..];
      if s[0] == u {
        assert u !in s[1..];
      } else {
        assert s[0] !in s[1..];
        WithoutEnumerates(s[1..], us - {s[0]}, u);
        assert us - {s[0]} - {u} == us - {u} - {s[0]};
        var r := Without(s[1..], u);
        assert s[0] !in r;
        assert forall v :: v in [s[0]] + r <==> v == s[0] || v in r;
      }
    }
  }

  lemma TakenOff(s: seq<string>, known: set<string>, kept: set<string>, u: string)
    requires Enumerates(s, known - kept)
    ensures Enumerates(Without(s, u), known - (kept + {u}))
  {
    WithoutEnumerates(s, known - kept, u);
    assert known - kept - {u} == known - (kept + {u});
  }

  /** The second loop of Breeding::Vm: whatever libvirt lists is added; what could not be
      added leaves `b`, what was added leaves the list of the rest. */
  method AddListed(view: System, listed: set<string>, rest: seq<string>, ghost known: set<string>)
    returns (b: set<string>, s: seq<string>)
    requires view.registry.Valid() && view.domainMap == map[] && Enumerates(rest, known)
    modifies view, view.registry
    ensures view.registry.Valid() && view.registry.dropped == old(view.registry.dropped)
    ensures Added(view.registry, old(view.registry.View()), view.registry.View(), listed, b)
    ensures view.domainMap.Keys == b && Enumerates(s, known - b)
  {
    var registry := view.registry;
    ghost var r := registry.View();
    ghost var kept: set<string> := {};
    b, s := listed, rest;
    var todo, done := listed, {};
    NoneAdded(registry, r);
    assert known - {} == known;
    while todo != {}
      invariant todo + done == listed && todo !! done
      invariant registry.Valid() && registry.dropped == old(registry.dropped)
      invariant Added(registry, r, registry.View(), done, kept) && kept == view.domainMap.Keys
      invariant b == listed - (done - kept) && Enumerates(s, known - kept)
      decreases todo
    {
      var u :| u in todo;
      var added := AddOne(view, u, r, done, kept);
      todo, done := todo - {u}, done + {u};
      if added {
        TakenOff(s, known, kept, u);
        s, kept := Without(s, u), kept + {u};
      } else {
        b := b - {u};
      }
    }
    assert done == listed;
  }

  /** One turn of that loop, with the uuids in `done` tried before and those in `kept` added. */
  method AddOne(view: System, u: string, ghost r: Maps, ghost done: set<string>, ghost kept: set<string>)
    returns (added: bool)
    requires view.registry.Valid() && Added(view.registry, r, view.registry.View(), done, kept)
    requires u !in done && view.domainMap.Keys == kept
    modifies view, view.registry
    ensures view.registry.Valid() && view.registry.dropped == old(view.registry.dropped)
    ensures added <==> Addable(view.registry, r, u)
    ensures view.domainMap.Keys == kept + if added then {u} else {}
    ensures Added(view.registry, r, view.registry.View(), done + {u}, kept + if added then {u} else {})
  {
    ghost var m := view.registry.View();
    AddableStays(view.registry, r, m, done, kept, u);
    var entry := view.Add(u);
    added := entry != null;
    AddedNext(view.registry, r, m, view.registry.View(), done, kept, u, added);
  }

  /** `m` is what adding the uuids in `done` makes of `r`, those in `kept` with success. */
  ghost predicate Added(registry: Actual, r: Maps, m: Maps, done: set<string>, kept: set<string>) {
    && kept == Survivors(registry, r, done)
    && m.defined.Keys == r.defined.Keys + kept
    && m.undeclared == r.undeclared
    && m.booking == r.booking - (done - {""})
    && (forall v :: v in r.defined ==> m.defined[v] == r.defined[v])
    && (forall u :: u in kept && u in r.booking && r.booking[u].Kept? ==> m.defined[u] == r.booking[u].vm)
  }

  lemma NoneAdded(registry: Actual, r: Maps)
    ensures Added(registry, r, r, {}, {})
  {
    assert r.booking - ({} - {""}) == r.booking;
  }

  lemma AddableStays(registry: Actual, r: Maps, m: Maps, done: set<string>, kept: set<string>, u: string)
    requires Added(registry, r, m, done, kept) && u !in done
    ensures Addable(registry, m, u) <==> Addable(registry, r, u)
    ensures u in m.booking <==> u in r.booking
    ensures u in m.booking ==> m.booking[u] == r.booking[u]
  {
    assert u !in kept;
  }

  lemma AddedNext(registry: Actual, r: Maps, m: Maps, m': Maps, done: set<string>, kept: set<string>,
                  u: string, added: bool)
    requires Added(registry, r, m, done, kept) && u !in done
    requires added <==> Addable(registry, r, u)
    requires u == "" ==> m' == m
    requires u != "" ==> m'.undeclared == m.undeclared && m'.booking == m.booking - {u}
    requires m'.defined.Keys == m.defined.Keys + if added then {u} else {}
    requires forall v :: v in m.defined ==> m'.defined[v] == m.defined[v]
    requires added && u in m.booking && m.booking[u].Kept? ==> m'.defined[u] == m.booking[u].vm
    ensures Added(registry, r, m', done + {u}, kept + if added then {u} else {})
  {
    AddableStays(registry, r, m, done, kept, u);
    if u == "" {
      assert done + {u} - {""} == done - {""};
    } else {
      assert m.booking - {u} == r.booking - (done + {u} - {""});
    }
  }

  /** The third loop: a uuid that disappeared is defined once more so that undefining it
      takes it out of the directory as well. */
  method DropRest(registry: Actual, s: seq<string>, ghost gone: set<string>)
    requires registry.Valid() && Enumerates(s, gone)
    modifies registry
    ensures registry.Valid()
    ensures registry.View() == Minus(old(registry.View()), gone)
    ensures registry.dropped == old(registry.dropped) + DirectoryDrops(registry, old(registry.View()), gone)
  {
    ghost var r := registry.View();
    ghost var done: set<string> := {};
    MinusNone(r);
    for k := 0 to |s|
      invariant done == set u | u in s[..k]
      invariant registry.Valid() && registry.View() == Minus(r, done)
      invariant registry.dropped == old(registry.dropped) + DirectoryDrops(registry, r, done)
    {
      assert s[..k + 1] == s[..k] + [s[k]];
      DropOne(registry, s[k]);
      MinusTwice(r, done, s[k]);
      DropsOneMore(registry, r, done, s[k]);
      done := done + {s[k]};
    }
    assert s[..|s|] == s && done == gone;
  }

  method DropOne(registry: Actual, u: string)
    requires registry.Valid()
    modifies registry
    ensures registry.Valid()
    ensures registry.View() == Minus(old(registry.View()), {u})
    ensures registry.dropped == old(registry.dropped) + if Drops(registry, old(registry.View()), u) then {u} else {}
  {
    ghost var before := registry.View();
    var _, created := registry.Define(u);
    registry.Undefine(u);
    DefineUndefine(before, created, u);
  }

  /** The uuid is defined, or can be: undefining it takes it out of the directory. */
  ghost predicate Drops(registry: Actual, m: Maps, u: string) {
    u in m.defined || (u !in m.undeclared && registry.Definable(m, u))
  }

  ghost function DirectoryDrops(registry: Actual, m: Maps, us: set<string>): set<string> {
    set u | u in us && Drops(registry, m, u)
  }

  lemma DropsOneMore(registry: Actual, m: Maps, done: set<string>, u: string)
    requires u !in done
    ensures Drops(registry, Minus(m, done), u) <==> Drops(registry, m, u)
    ensures DirectoryDrops(registry, m, done + {u}) ==
            DirectoryDrops(registry, m, done) + if Drops(registry, m, u) then {u} else {}
  {
  }

  /** The maps without these uuids. */
  function Minus(m: Maps, us: set<string>): Maps {
    Maps(m.defined - us, m.undeclared - us, m.booking - us)
  }

  lemma MinusNone(m: Maps)
    ensures Minus(m, {}) == m
  {
  }

  lemma MinusTwice(m: Maps, a: set<string>, u: string)
    ensures Minus(Minus(m, a), {u}) == Minus(m, a + {u})
  {
  }

  /** Defining and undefining a uuid leaves it in none of the maps, whether or not the
      definition succeeds, and everything else where it was. */
  lemma DefineUndefine(m: Maps, created: Option<Vm?>, u: string)
    requires Inv(m) && (created.Some? ==> created.value != null)
    ensures Undefining(Defining(m, u, created).0, u) == Minus(m, {u})
  {
    if u in m.defined || u in m.undeclared {
      assert m.booking - {u} == m.booking;
    }
  }

  lemma ResetWithin(m: Maps, items: seq<Item>)
    requires Inv(m)
    ensures var r := Resetting(m, items);
            && Inv(r)
            && r.defined.Keys + r.undeclared.Keys <= m.undeclared.Keys
            && forall u :: u in m.defined && Listed(items, u) ==> u in r.booking && r.booking[u] == Kept(m.defined[u])
  {
    RebookAllInv(m.(defined := map[]), m.defined, items);
    forall u {
      ResetMeaning(m, items, u);
    }
  }

  /** The registry can define `u` after a reset with this directory: its booking decides, or
      else the machine kept if the directory lists it, or the first item that names it, or
      the default directory. */
  predicate Restorable(registry: Actual, m: Maps, items: seq<Item>, u: string) {
    if u in m.booking then m.booking[u].Declared? ==> m.booking[u].directory in registry.users
    else match FirstListed(items, u)
         case Some(first) => u in m.defined || first.directory in registry.users
         case None => registry.defaultDirectory in registry.users
  }

  /** Exactly these survive: what libvirt lists, is not undeclared, and can be restored from
      the maps and the directory as they are before the reset. An undeclared machine never
      does, even if libvirt and the directory both list it. */
  lemma SurvivesExactly(registry: Actual, m: Maps, items: seq<Item>, us: set<string>, u: string)
    requires Inv(m)
    ensures u in Survivors(registry, Resetting(m, items), us) <==>
            u in us && u != "" && u !in m.undeclared && Restorable(registry, m, items, u)
  {
    ResetMeaning(m, items, u);
  }

  ghost function Surviving(registry: Actual, m: Maps, items: seq<Item>, us: set<string>): set<string> {
    set u | u in us && u != "" && u !in m.undeclared && Restorable(registry, m, items, u)
  }

  lemma SurvivorsAre(registry: Actual, m: Maps, items: seq<Item>, us: set<string>)
    requires Inv(m)
    ensures Survivors(registry, Resetting(m, items), us) == Surviving(registry, m, items, us)
  {
    forall u {
      SurvivesExactly(registry, m, items, us, u);
    }
  }

  /** An undeclared machine never survives: after the reset its uuid is still undeclared or
      already defined, so it is not added. */
  lemma UndeclaredNeverSurvives(registry: Actual, m: Maps, items: seq<Item>, us: set<string>, u: string)
    requires Inv(m) && u in m.undeclared
    ensures u !in Survivors(registry, Resetting(m, items), us)
  {
    SurvivesExactly(registry, m, items, us, u);
  }

  /** The key sets after the loops: `d`, `n` and `k` are those of the defined, undeclared and
      booking maps after the reset, `b` was added, and what was known besides is dropped. */
  lemma Settled(d: set<string>, n: set<string>, k: set<string>, known: set<string>, listed: set<string>, b: set<string>)
    requires d + n <= known && d !! b && b <= listed - {""}
    ensures d + b - (known - b) == b
    ensures n - (known - b) == n * b
    ensures k - (listed - {""}) - (known - b) !! known
  {
  }

  /** Whether the directory item of a uuid that does not survive is deleted: the directory
      lists it, or it was defined and the default directory has a user. */
  ghost predicate Forgotten(registry: Actual, m: Maps, items: seq<Item>, u: string) {
    Listed(items, u) || (u in m.defined && registry.defaultDirectory in registry.users)
  }

  /** `l` is what adding `us` makes of the maps a reset left, and the rest of what was known
      is dropped from it. */
  lemma DropsForgotten(registry: Actual, m: Maps, items: seq<Item>, us: set<string>, l: Maps, b: set<string>)
    requires Inv(m) && Added(registry, Resetting(m, items), l, us, b)
    ensures var rest := m.defined.Keys + m.undeclared.Keys - b;
            DirectoryDrops(registry, l, rest) == set u | u in rest && Forgotten(registry, m, items, u)
  {
    forall u | u in m.defined.Keys + m.undeclared.Keys - b
      ensures Drops(registry, l, u) <==> Forgotten(registry, m, items, u)
    {
      ResetMeaning(m, items, u);
    }
  }

  lemma RestDropped(registry: Actual, m: Maps, items: seq<Item>, us: set<string>, l: Maps, b: set<string>)
    requires Inv(m) && Added(registry, Resetting(m, items), l, us, b)
    ensures var known := m.defined.Keys + m.undeclared.Keys;
            var end := Minus(l, known - b);
            && b == Surviving(registry, m, items, us)
            && end.defined.Keys == b && end.undeclared == map[] && end.booking.Keys !! known
            && forall u :: u in b && u in m.defined && Listed(items, u) ==> end.defined[u] == m.defined[u]
  {
    ResetWithin(m, items);
    SurvivorsAre(registry, m, items, us);
    var r, known := Resetting(m, items), m.defined.Keys + m.undeclared.Keys;
    Settled(r.defined.Keys, r.undeclared.Keys, r.booking.Keys, known, us, b);
    assert Minus(l, known - b).undeclared.Keys == {};
  }

  /** The first loop: takes the foreign machines out of what libvirt lists. Only a defined
      machine has a configuration to look at. */
  method Expel(registry: Actual, s: seq<string>, listed: set<string>, foreign: set<string>)
    returns (b: set<string>, expelled: set<string>)
    requires registry.Valid()
    ensures expelled == (set u | u in s) * registry.defined.Keys * foreign
    ensures b == listed - expelled
  {
    b, expelled := listed, {};
    for k := 0 to |s|
      invariant expelled == (set u | u in s[..k]) * registry.defined.Keys * foreign
      invariant b == listed - expelled
    {
      assert s[..k + 1] == s[..k] + [s[k]];
      var vm := registry.Find(s[k]);
      assert vm != null <==> s[k] in registry.defined;
      if vm != null && s[k] in foreign {
        b, expelled := b - {s[k]}, expelled + {s[k]};
      }
    }
    assert s[..|s|] == s;
  }

  /** Breeding::Vm: `listed` are the uuids libvirt reports (None when it cannot list them),
      `foreign` the uuids whose configuration names another server, `items` the directory.
      Returns the uuids libvirt is told to undefine. */
  method Reconcile(view: System, listed: Option<seq<string>>, foreign: set<string>, items: seq<Item>)
    returns (expelled: set<string>)
    requires view.registry.Valid() && view.domainMap == map[]
    modifies view, view.registry, view.registry.Machines()
    ensures view.registry.Valid()
    ensures listed.None? ==>
              view.registry.View() == old(view.registry.View()) && view.domainMap == map[] && expelled == {} &&
              view.registry.dropped == old(view.registry.dropped)
    ensures listed.Some? ==>
              var m := old(view.registry.View());
              var known := m.defined.Keys + m.undeclared.Keys;
              var kept := Surviving(view.registry, m, items, (set u | u in listed.value) - expelled);
              && expelled == m.defined.Keys * foreign
              && view.registry.defined.Keys == view.domainMap.Keys == kept
              && view.registry.undeclared == map[]
              && view.registry.booking.Keys !! known
              && view.registry.dropped == old(view.registry.dropped) +
                                          set u | u in known - kept && Forgotten(view.registry, m, items, u)
              && (forall u :: u in kept && u in m.defined && Listed(items, u) ==>
                    view.registry.defined[u] == m.defined[u])
  {
    if listed.None? {
      return {};
    }
    var registry := view.registry;
    ghost var m := registry.View();
    ghost var known := m.defined.Keys + m.undeclared.Keys;
    var b := set u | u in listed.value;
    var s := registry.Snapshot();
    b, expelled := Expel(registry, s, b, foreign);
    ghost var us := b;
    assert (set u | u in s) == known;
    assert known * m.defined.Keys * foreign == m.defined.Keys * foreign;
    registry.Reset(items);
    b, s := AddListed(view, b, s, known);
    RestDropped(registry, m, items, us, registry.View(), b);
    DropsForgotten(registry, m, items, us, registry.View(), b);
    DropRest(registry, s, known - b);
  }
}
