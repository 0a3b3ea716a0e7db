/** Runs of registry operations, what a reset means, and machines that keep their identity. */
module RegistryRuns {
  import opened Results
  import opened Registry

  // ---------------------------------------------------------------- whole operations

  datatype Op =
    | Declare(uuid: string, directory: string, home: string)
    | Undeclare(uuid: string)
    | Define(uuid: string, created: Option<Vm?>)
    | Undefine(uuid: string)
    | Reset(items: seq<Item>)

  /** A created machine is there and carries the uuid it was created for. */
  ghost predicate Honest(op: Op) {
    op.Define? && op.created.Some? ==> op.created.value != null && op.created.value.uuid == op.uuid
  }

  function Apply(m: Maps, op: Op): Maps {
    match op
    case Declare(u, d, h) => Declaring(m, u, d, h).0
    case Undeclare(u) => Undeclaring(m, u).0
    case Define(u, created) => Defining(m, u, created).0
    case Undefine(u) => Undefining(m, u)
    case Reset(items) => Resetting(m, items)
  }

  function ApplyAll(m: Maps, ops: seq<Op>): Maps
    decreases |ops|
  {
    if ops == [] then m else ApplyAll(Apply(m, ops[0]), ops[1..])
  }

  lemma {:induction false} RebookAllInv(m: Maps, before: map<string, Vm?>, items: seq<Item>)
    requires Inv(m) && InFlight(m, before)
    ensures var r := RebookAll(m, before, items);
            Inv(r) && InFlight(r, before) && r.defined.Keys + r.undeclared.Keys == m.defined.Keys + m.undeclared.Keys
    decreases |items|
  {
    if items != [] {
      var init := items[..|items| - 1];
      RebookAllInv(m, before, init);
      RebookInv(RebookAll(m, before, init), before, items[|items| - 1]);
    }
  }

  lemma OpInv(m: Maps, op: Op)
    requires Inv(m) && Honest(op)
    ensures Inv(Apply(m, op))
  {
    match op
    case Declare(u, d, h) => DeclaringInv(m, u, d, h);
    case Undeclare(_) =>
    case Define(u, created) => DefiningInv(m, u, created);
    case Undefine(_) =>
    case Reset(items) => RebookAllInv(m.(defined := map[]), m.defined, items);
  }

  lemma DefiningInv(m: Maps, u: string, created: Option<Vm?>)
    requires Inv(m) && (created.Some? ==> created.value != null && created.value.uuid == u)
    ensures Inv(Defining(m, u, created).0)
  {
  }

  /** With each public operation as one step, no run stores a null machine or puts a uuid
      into two of the three maps. */
  lemma {:induction false} AlwaysDisjoint(m: Maps, ops: seq<Op>)
    requires Inv(m) && forall op :: op in ops ==> Honest(op)
    ensures Inv(ApplyAll(m, ops))
    decreases |ops|
  {
    if ops != [] {
      OpInv(m, ops[0]);
      AlwaysDisjoint(Apply(m, ops[0]), ops[1..]);
    }
  }

  // ---------------------------------------------------------------- a split reset

  /** `Reset` drops the lock after it has taken the defined map away and between items;
      `before` in `Book` is the map some reset took. */
  datatype Micro = Whole(op: Op) | Take | Book(before: map<string, Vm?>, item: Item)

  function MicroStep(m: Maps, s: Micro): Maps {
    match s
    case Whole(op) => Apply(m, op)
    case Take => m.(defined := map[])
    case Book(before, item) => Rebook(m, before, item)
  }

  function MicroRun(m: Maps, ss: seq<Micro>): Maps
    decreases |ss|
  {
    if ss == [] then m else MicroRun(MicroStep(m, ss[0]), ss[1..])
  }

  lemma {:induction false} RebookAllApart(m: Maps, before: map<string, Vm?>, items: seq<Item>)
    requires m.defined.Keys !! m.undeclared.Keys
    ensures RebookAll(m, before, items).defined.Keys !! RebookAll(m, before, items).undeclared.Keys
    decreases |items|
  {
    if items != [] {
      RebookAllApart(m, before, items[..|items| - 1]);
    }
  }

  /** Defined and undeclared machines stay apart even in runs that split resets and
      interleave them with anything. */
  lemma {:induction false} SplitResetApart(m: Maps, ss: seq<Micro>)
    requires m.defined.Keys !! m.undeclared.Keys
    ensures MicroRun(m, ss).defined.Keys !! MicroRun(m, ss).undeclared.Keys
    decreases |ss|
  {
    if ss != [] {
      if ss[0].Whole? && ss[0].op.Reset? {
        RebookAllApart(m.(defined := map[]), m.defined, ss[0].op.items);
      }
      SplitResetApart(MicroStep(m, ss[0]), ss[1..]);
    }
  }

  /** A reset of these items, step by step, is the whole operation. */
  lemma SplitIsReset(m: Maps, items: seq<Item>)
    ensures var books := seq(|items|, i requires 0 <= i < |items| => Book(m.defined, items[i]));
            MicroRun(m, [Take] + books) == Resetting(m, items)
  {
    var books := seq(|items|, i requires 0 <= i < |items| => Book(m.defined, items[i]));
    assert ([Take] + books)[1..] == books;
    BooksAreRebooks(m.(defined := map[]), m.defined, items);
  }

  lemma {:induction false} BooksAreRebooks(m: Maps, before: map<string, Vm?>, items: seq<Item>)
    ensures MicroRun(m, seq(|items|, i requires 0 <= i < |items| => Book(before, items[i]))) ==
            RebookAll(m, before, items)
    decreases |items|
  {
    var books := seq(|items|, i requires 0 <= i < |items| => Book(before, items[i]));
    if items != [] {
      var n := |items| - 1;
      var init := items[..n];
      BooksAreRebooks(m, before, init);
      assert books == seq(n, i requires 0 <= i < n => Book(before, init[i])) + [Book(before, items[n])];
      MicroRunSnoc(m, seq(n, i requires 0 <= i < n => Book(before, init[i])), Book(before, items[n]));
    }
  }

  lemma {:induction false} MicroRunSnoc(m: Maps, ss: seq<Micro>, s: Micro)
    ensures MicroRun(m, ss + [s]) == MicroStep(MicroRun(m, ss), s)
    decreases |ss|
  {
    if ss == [] {
      assert ([] + [s])[1..] == [];
    } else {
      assert (ss + [s])[0] == ss[0] && (ss + [s])[1..] == ss[1..] + [s];
      MicroRunSnoc(MicroStep(m, ss[0]), ss[1..], s);
    }
  }

  /** What operations create and resets took away carries the uuid it stands for. */
  ghost predicate HonestStep(s: Micro) {
    match s
    case Whole(op) => Honest(op)
    case Take => true
    case Book(before, _) => forall u :: u in before && before[u] != null ==> before[u].uuid == u
  }

  /** A step of a split reset does not book a uuid that has been defined or undeclared
      meanwhile. */
  predicate Undisturbed(m: Maps, s: Micro) {
    match s
    case Whole(_) => true
    case Take => true
    case Book(before, item) =>
      item.skipped || item.uuid !in before || before[item.uuid] == null ||
      (item.uuid !in m.defined && item.uuid !in m.undeclared)
  }

  lemma StepInv(m: Maps, s: Micro)
    requires Inv(m) && HonestStep(s)
    ensures Inv(MicroStep(m, s)) <==> Undisturbed(m, s)
  {
    match s
    case Whole(op) => OpInv(m, op);
    case Take =>
    case Book(before, item) =>
      if !item.skipped && item.uuid in before && before[item.uuid] != null {
        assert item.uuid in Rebook(m, before, item).booking.Keys;
      }
  }

  /** The invariant holds after every step of the run. */
  ghost predicate StaysInv(m: Maps, ss: seq<Micro>)
    decreases |ss|
  {
    ss == [] || (Inv(MicroStep(m, ss[0])) && StaysInv(MicroStep(m, ss[0]), ss[1..]))
  }

  ghost predicate AllUndisturbed(m: Maps, ss: seq<Micro>)
    decreases |ss|
  {
    ss == [] || (Undisturbed(m, ss[0]) && AllUndisturbed(MicroStep(m, ss[0]), ss[1..]))
  }

  /** In runs that split resets and interleave them with anything, the three maps stay apart
      all along exactly if no reset books a uuid defined or undeclared by then. */
  lemma {:induction false} SplitBooking(m: Maps, ss: seq<Micro>)
    requires Inv(m) && forall s :: s in ss ==> HonestStep(s)
    ensures StaysInv(m, ss) <==> AllUndisturbed(m, ss)
    ensures AllUndisturbed(m, ss) ==> Inv(MicroRun(m, ss))
    decreases |ss|
  {
    if ss != [] {
      StepInv(m, ss[0]);
      if Undisturbed(m, ss[0]) {
        SplitBooking(MicroStep(m, ss[0]), ss[1..]);
      }
    }
  }

  /** Such a run: the machine is defined again after the reset took the map away. */
  lemma DefineDuringReset(m: Maps, u: string, vm: Vm?, other: Vm?, directory: string, home: string)
    requires Inv(m) && m.defined == map[u := vm] && vm != null
    requires other != null && other.uuid == u
    ensures var item := Item(directory, u, home, false);
            var r := MicroRun(m, [Take, Whole(Define(u, Some(other))), Book(m.defined, item)]);
            u in r.defined && u in r.booking && r.defined[u] == other && r.booking[u] == Kept(vm)
  {
    var item := Item(directory, u, home, false);
    var ss := [Take, Whole(Define(u, Some(other))), Book(m.defined, item)];
    var m1 := MicroStep(m, ss[0]);
    assert u in m.defined.Keys;
    var m2 := MicroStep(m1, ss[1]);
    assert m2.defined == map[u := other];
    assert ss[1..][1..][1..] == [];
    assert MicroRun(m, ss) == MicroRun(m1, ss[1..]) == MicroRun(m2, ss[1..][1..]);
    assert MicroRun(m2, ss[1..][1..]) == MicroRun(MicroStep(m2, ss[2]), []);
  }

  // ---------------------------------------------------------------- the meaning of a reset

  /** What becomes of `u` when a reset that took `before` away turns `m` into `r`, where
      `listed` says whether a directory item named it. */
  ghost predicate Rebooked(m: Maps, before: map<string, Vm?>, r: Maps, u: string, listed: bool) {
    && (u in r.defined <==> u in m.defined || (u in m.undeclared && listed))
    && (u in r.undeclared <==> u in m.undeclared && !listed)
    && (u in r.booking <==> u in m.booking || (listed && u !in m.defined && u !in m.undeclared))
    && (u in r.defined ==> r.defined[u] == if u in m.defined then m.defined[u] else m.undeclared[u])
    && (u in r.undeclared ==> r.undeclared[u] == m.undeclared[u])
    && (u in before && listed ==> u in r.booking && r.booking[u] == Kept(before[u]))
    && (u in m.booking && u !in before ==> r.booking[u] == m.booking[u])
  }

  lemma RebookMeaning(m: Maps, before: map<string, Vm?>, r: Maps, item: Item, u: string, listed: bool)
    requires Inv(m) && Inv(r) && InFlight(m, before) && Rebooked(m, before, r, u, listed)
    ensures Rebooked(m, before, Rebook(r, before, item), u, listed || (!item.skipped && item.uuid == u))
  {
    assert u in before ==> before[u] != null;
    if item.uuid != u {
      RebookOther(r, before, item, u);
    }
  }

  /** What `m` says of `u`. */
  function Entries(m: Maps, u: string): (Option<Vm?>, Option<Vm?>, Option<Booking>) {
    (if u in m.defined then Some(m.defined[u]) else None,
     if u in m.undeclared then Some(m.undeclared[u]) else None,
     if u in m.booking then Some(m.booking[u]) else None)
  }

  lemma RebookOther(m: Maps, before: map<string, Vm?>, item: Item, u: string)
    requires item.uuid != u
    ensures Entries(Rebook(m, before, item), u) == Entries(m, u)
  {
  }

  lemma {:induction false} RebookAllMeaning(m: Maps, before: map<string, Vm?>, items: seq<Item>, u: string)
    requires Inv(m) && InFlight(m, before)
    ensures Rebooked(m, before, RebookAll(m, before, items), u, Listed(items, u))
    decreases |items|
  {
    if items != [] {
      var init, last := items[..|items| - 1], items[|items| - 1];
      RebookAllMeaning(m, before, init, u);
      RebookAllInv(m, before, init);
      RebookMeaning(m, before, RebookAll(m, before, init), last, u, Listed(init, u));
      assert items == init + [last];
      assert Listed(items, u) <==> Listed(init, u) || (!last.skipped && last.uuid == u);
    }
  }

  lemma {:induction false} FirstIsListed(items: seq<Item>, u: string)
    ensures FirstListed(items, u).Some? <==> Listed(items, u)
    decreases |items|
  {
    if items != [] {
      var init, last := items[..|items| - 1], items[|items| - 1];
      FirstIsListed(init, u);
      assert items == init + [last];
      assert Listed(items, u) <==> Listed(init, u) || (!last.skipped && last.uuid == u);
    }
  }

  lemma {:induction false} RebookAllDeclares(m: Maps, before: map<string, Vm?>, items: seq<Item>, u: string)
    requires Inv(m) && InFlight(m, before) && u !in before && u !in m.defined && u !in m.undeclared && u !in m.booking
    ensures var r, first := RebookAll(m, before, items), FirstListed(items, u);
            && (first.Some? <==> u in r.booking)
            && (first.Some? ==> r.booking[u] == Declared(first.value.directory, first.value.home))
    decreases |items|
  {
    if items != [] {
      var init, last := items[..|items| - 1], items[|items| - 1];
      RebookAllDeclares(m, before, init, u);
      RebookAllMeaning(m, before, init, u);
      FirstIsListed(init, u);
    }
  }

  /** After a reset the directory decides: a listed uuid is booked, with its machine if it
      was defined and else as its first item declares it, unless it was booked already or
      undeclared; then it stays booked or is defined again. An unlisted uuid that
      was defined is gone. */
  lemma ResetMeaning(m: Maps, items: seq<Item>, u: string)
    requires Inv(m)
    ensures var r := Resetting(m, items);
            && (u in r.defined <==> u in m.undeclared && Listed(items, u))
            && (u in r.undeclared <==> u in m.undeclared && !Listed(items, u))
            && (u in r.booking <==> u in m.booking || (Listed(items, u) && u !in m.undeclared))
            && (u in r.defined ==> r.defined[u] == m.undeclared[u])
            && (u in m.defined && Listed(items, u) ==> r.booking[u] == Kept(m.defined[u]))
            && (u in m.booking ==> r.booking[u] == m.booking[u])
            && (FirstListed(items, u).Some? <==> Listed(items, u))
            && (u in r.booking && u !in m.booking && u !in m.defined ==>
                  r.booking[u] == Declared(FirstListed(items, u).value.directory, FirstListed(items, u).value.home))
  {
    RebookAllMeaning(m.(defined := map[]), m.defined, items, u);
    FirstIsListed(items, u);
    if u !in m.defined && u !in m.undeclared && u !in m.booking {
      RebookAllDeclares(m.(defined := map[]), m.defined, items, u);
    }
  }

  // ---------------------------------------------------------------- identity

  /** Withdrawing and declaring again gives the same machine back, in the state before,
      exactly when the uuid was defined. */
  lemma UndeclareDeclare(m: Maps, u: string, directory: string, home: string)
    requires Inv(m)
    ensures var (m1, c1) := Undeclaring(m, u);
            var (m2, c2) := Declaring(m1, u, directory, home);
            && (u in m.defined <==> c1 == SUCCESS && c2 == SUCCESS && u in m2.defined)
            && (u in m.defined ==> m2 == m)
  {
    var m1 := Undeclaring(m, u).0;
    if u in m.defined {
      assert m1.undeclared - {u} == m.undeclared;
      assert m1.defined[u := m.defined[u]] == m.defined;
    }
  }

  /** A defined machine that the directory still lists comes back from a reset and a
      definition as the same object, at the home the directory gives. */
  method ResetDefine(registry: Actual, items: seq<Item>, u: string) returns (code: Code)
    requires registry.Valid() && u in registry.defined && Listed(items, u)
    modifies registry, registry.Machines()
    ensures registry.Valid()
    ensures code == SUCCESS && u in registry.defined && registry.defined[u] == old(registry.defined[u])
    ensures exists i :: i in items && !i.skipped && i.uuid == u && registry.defined[u].home == i.home
  {
    ghost var m, home := registry.View(), registry.defined[u].home;
    ResetMeaning(m, items, u);
    ListedHome(items, u, home);
    registry.Reset(items);
    ghost var created;
    code, created := registry.Define(u);
  }

  /** A uuid known nowhere that is declared and then defined becomes a new machine at the
      place declared, exactly if some user keeps its directory; either way the declaration
      is used up. */
  method DeclareDefine(registry: Actual, u: string, directory: string, home: string) returns (code: Code)
    requires registry.Valid()
    requires u !in registry.defined && u !in registry.undeclared && u !in registry.booking
    modifies registry
    ensures registry.Valid()
    ensures registry.defined - {u} == old(registry.defined)
    ensures registry.undeclared == old(registry.undeclared) && registry.booking == old(registry.booking)
    ensures u in registry.defined <==> directory in registry.users
    ensures code == if directory in registry.users then SUCCESS else FAILURE
    ensures u in registry.defined ==>
              && registry.defined[u].uuid == u
              && registry.defined[u].directory == directory && registry.defined[u].home == home
  {
    var _ := registry.Declare(u, directory, home);
    assert registry.booking - {u} == old(registry.booking);
    ghost var created;
    code, created := registry.Define(u);
    assert registry.defined.Keys - {u} == old(registry.defined).Keys;
  }

  lemma {:induction false} ListedHome(items: seq<Item>, u: string, home: string)
    requires Listed(items, u)
    ensures exists i :: i in items && !i.skipped && i.uuid == u && HomeAfter(items, u, home) == i.home
    decreases |items|
  {
    var init, last := items[..|items| - 1], items[|items| - 1];
    assert items == init + [last];
    if last.skipped || last.uuid != u {
      ListedHome(init, u, home);
      var i :| i in init && !i.skipped && i.uuid == u && HomeAfter(init, u, home) == i.home;
      assert i in items;
    }
  }
}
