/** The registry of virtual machines: which uuids are defined, which were withdrawn while
    defined (undeclared), and which are announced but not defined yet (booked). */
module Registry {
  import opened Results

  class Vm {
    const uuid: string
    const directory: string
    var home: string

    constructor (uuid: string, directory: string)
      ensures this.uuid == uuid && this.directory == directory && home == ""
    {
      this.uuid, this.directory, home := uuid, directory, "";
    }

    method SetHome(value: string)
      modifies this
      ensures home == value
    {
      home := value;
    }
  }

  /** What is kept for a booked uuid: a declaration or a whole machine from before a reset. */
  datatype Booking = Declared(directory: string, home: string) | Kept(vm: Vm?)

  datatype Maps = Maps(defined: map<string, Vm?>, undeclared: map<string, Vm?>, booking: map<string, Booking>)

  /** An entry of the VM directory; containers and templates are `skipped` by a reset. */
  datatype Item = Item(directory: string, uuid: string, home: string, skipped: bool)

  // ---------------------------------------------------------------- specification

  function Declaring(m: Maps, u: string, directory: string, home: string): (Maps, Code) {
    if u in m.defined then
      (m, ALREADY_REGISTERED)
    else if u in m.undeclared then
      (m.(defined := m.defined[u := m.undeclared[u]], undeclared := m.undeclared - {u}), SUCCESS)
    else if u in m.booking then
      (m, DOUBLE_INIT)
    else
      (m.(booking := m.booking[u := Booking.Declared(directory, home)]), SUCCESS)
  }

  function Undeclaring(m: Maps, u: string): (Maps, Code) {
    var d := m.(defined := m.defined - {u});
    if u in m.defined && m.defined[u] != null then
      (d.(undeclared := m.undeclared[u := m.defined[u]]), SUCCESS)
    else if u in m.booking then
      (d.(booking := m.booking - {u}), SUCCESS)
    else
      (d, FILE_NOT_FOUND)
  }

  /** The machine a definition of `u` stores: the kept one, or else one just `created`. */
  function Conducted(m: Maps, u: string, created: Option<Vm?>): Option<Vm?> {
    if u in m.booking && m.booking[u].Kept? then Some(m.booking[u].vm) else created
  }

  function Defining(m: Maps, u: string, created: Option<Vm?>): (Maps, Code) {
    if u in m.defined || u in m.undeclared then
      (m, ALREADY_REGISTERED)
    else
      var taken := m.(booking := m.booking - {u});
      match Conducted(m, u, created)
      case None => (taken, FAILURE)
      case Some(vm) => (taken.(defined := m.defined[u := vm]), SUCCESS)
  }

  function Undefining(m: Maps, u: string): Maps {
    var d := m.(defined := m.defined - {u});
    if u in m.defined && m.defined[u] != null then d else d.(undeclared := m.undeclared - {u})
  }

  /** One directory item of a reset that has taken the map `before` away. */
  function Rebook(m: Maps, before: map<string, Vm?>, item: Item): Maps {
    if item.skipped then
      m
    else if item.uuid in before && before[item.uuid] != null then
      m.(booking := m.booking[item.uuid := Kept(before[item.uuid])])
    else
      Declaring(m, item.uuid, item.directory, item.home).0
  }

  function RebookAll(m: Maps, before: map<string, Vm?>, items: seq<Item>): Maps
    decreases |items|
  {
    if items == [] then m
    else Rebook(RebookAll(m, before, items[..|items| - 1]), before, items[|items| - 1])
  }

  function Resetting(m: Maps, items: seq<Item>): Maps {
    RebookAll(m.(defined := map[]), m.defined, items)
  }

  predicate Listed(items: seq<Item>, u: string) {
    exists i :: i in items && !i.skipped && i.uuid == u
  }

  /** The first item that is not skipped and names `u`. */
  function FirstListed(items: seq<Item>, u: string): Option<Item>
    decreases |items|
  {
    if items == [] then None
    else
      var first, last := FirstListed(items[..|items| - 1], u), items[|items| - 1];
      if first.None? && !last.skipped && last.uuid == u then Some(last) else first
  }

  /** The home a reset leaves to a defined machine: the directory's last word on it. */
  function HomeAfter(items: seq<Item>, u: string, home: string): string
    decreases |items|
  {
    if items == [] then home
    else
      var i := items[|items| - 1];
      if !i.skipped && i.uuid == u then i.home else HomeAfter(items[..|items| - 1], u, home)
  }

  // ---------------------------------------------------------------- invariant

  ghost predicate Disjoint(m: Maps) {
    && m.defined.Keys !! m.undeclared.Keys
    && m.defined.Keys !! m.booking.Keys
    && m.undeclared.Keys !! m.booking.Keys
  }

  /** Every stored machine is there and carries the uuid it is stored under. */
  ghost predicate Owned(m: Maps) {
    && (forall u :: u in m.defined ==> m.defined[u] != null && m.defined[u].uuid == u)
    && (forall u :: u in m.undeclared ==> m.undeclared[u] != null && m.undeclared[u].uuid == u)
    && (forall u :: u in m.booking && m.booking[u].Kept? ==> m.booking[u].vm != null && m.booking[u].vm.uuid == u)
  }

  ghost predicate Inv(m: Maps) {
    Disjoint(m) && Owned(m)
  }

  /** A map taken away by a reset, as long as nobody else defines or undeclares its uuids. */
  ghost predicate InFlight(m: Maps, before: map<string, Vm?>) {
    && before.Keys !! m.defined.Keys + m.undeclared.Keys
    && forall u :: u in before ==> before[u] != null && before[u].uuid == u
  }

  lemma DeclaringInv(m: Maps, u: string, directory: string, home: string)
    requires Inv(m)
    ensures var r := Declaring(m, u, directory, home).0;
            Inv(r) && r.defined.Keys + r.undeclared.Keys == m.defined.Keys + m.undeclared.Keys
  {
  }

  lemma RebookInv(m: Maps, before: map<string, Vm?>, item: Item)
    requires Inv(m) && InFlight(m, before)
    ensures var r := Rebook(m, before, item);
            Inv(r) && InFlight(r, before) && r.defined.Keys + r.undeclared.Keys == m.defined.Keys + m.undeclared.Keys
  {
    if item.uuid !in before {
      DeclaringInv(m, item.uuid, item.directory, item.home);
    }
  }

  // ---------------------------------------------------------------- implementation

  class Actual {
    const users: set<string>
    const defaultDirectory: string
    var defined: map<string, Vm?>
    var undeclared: map<string, Vm?>
    var booking: map<string, Booking>
    /** The uuids whose directory items were asked to be deleted. */
    var dropped: set<string>

    ghost function View(): Maps
      reads this
    {
      Maps(defined, undeclared, booking)
    }

    ghost predicate Valid()
      reads this
    {
      Inv(View())
    }

    ghost function Machines(): set<Vm?>
      reads this
    {
      set u | u in defined :: defined[u]
    }

    /** Some user keeps the directory a new machine for `u` would belong to, or no new
        machine is needed. */
    ghost predicate Definable(m: Maps, u: string) {
      if u !in m.booking then defaultDirectory in users
      else m.booking[u].Declared? ==> m.booking[u].directory in users
    }

    constructor (users: set<string>, defaultDirectory: string)
      ensures Valid() && View() == Maps(map[], map[], map[]) && dropped == {}
    {
      this.users, this.defaultDirectory := users, defaultDirectory;
      defined, undeclared, booking, dropped := map[], map[], map[], {};
    }

    method Find(u: string) returns (vm: Vm?)
      ensures vm == if u in defined then defined[u] else null
    {
      vm := if u in defined then defined[u] else null;
    }

    method Declare(u: string, directory: string, home: string) returns (code: Code)
      requires Valid()
      modifies this
      ensures Valid() && dropped == old(dropped)
      ensures (View(), code) == Declaring(old(View()), u, directory, home)
      ensures code == ALREADY_REGISTERED <==> u in old(defined)
      ensures code == DOUBLE_INIT <==> u in old(booking)
      ensures code == SUCCESS <==> u !in old(defined) && u !in old(booking)
      ensures code != SUCCESS ==> View() == old(View())
      ensures code == SUCCESS && u in old(undeclared) ==>
                View() == Maps(old(defined)[u := old(undeclared)[u]], old(undeclared) - {u}, old(booking))
      ensures code == SUCCESS && u !in old(undeclared) ==>
                View() == Maps(old(defined), old(undeclared), old(booking)[u := Declared(directory, home)])
    {
      if u in defined {
        return ALREADY_REGISTERED;
      }
      if u in undeclared {
        defined, undeclared := defined[u := undeclared[u]], undeclared - {u};
        return SUCCESS;
      }
      if u in booking {
        return DOUBLE_INIT;
      }
      booking := booking[u := Booking.Declared(directory, home)];
      return SUCCESS;
    }

    method Undeclare(u: string) returns (code: Code)
      requires Valid()
      modifies this
      ensures Valid() && dropped == old(dropped)
      ensures (View(), code) == Undeclaring(old(View()), u)
      ensures code == SUCCESS <==> u in old(defined) || u in old(booking)
      ensures code != SUCCESS ==> code == FILE_NOT_FOUND && View() == old(View())
      ensures u in old(defined) ==>
                View() == Maps(old(defined) - {u}, old(undeclared)[u := old(defined)[u]], old(booking))
      ensures u in old(booking) ==> View() == Maps(old(defined), old(undeclared), old(booking) - {u})
    {
      var vm := if u in defined then defined[u] else null;
      defined := defined - {u};
      if vm == null {
        if u in booking {
          booking := booking - {u};
          return SUCCESS;
        }
        return FILE_NOT_FOUND;
      }
      undeclared := undeclared[u := vm];
      return SUCCESS;
    }

    /** Visitor: a new machine if some user keeps the directory. */
    method Create(u: string, directory: string) returns (vm: Option<Vm?>)
      ensures vm.Some? <==> directory in users
      ensures vm.Some? ==> vm.value != null && fresh(vm.value) && vm.value.uuid == u &&
                           vm.value.directory == directory && vm.value.home == ""
    {
      if directory !in users {
        return None;
      }
      var made := new Vm(u, directory);
      return Some(made);
    }

    method Define(u: string) returns (code: Code, ghost created: Option<Vm?>)
      requires Valid()
      modifies this
      ensures Valid() && dropped == old(dropped)
      ensures (View(), code) == Defining(old(View()), u, created)
      ensures code == ALREADY_REGISTERED <==> u in old(defined) || u in old(undeclared)
      ensures code == SUCCESS || code == ALREADY_REGISTERED || code == FAILURE
      ensures u !in old(defined) && u !in old(undeclared) ==>
                (code == SUCCESS <==> Definable(old(View()), u))
      ensures u !in old(defined) && u !in old(undeclared) ==>
                defined - {u} == old(defined) && undeclared == old(undeclared) && booking == old(booking) - {u}
      ensures created.Some? ==> created.value != null && fresh(created.value)
      ensures code == SUCCESS && u in old(booking) && old(booking)[u].Declared? ==>
                defined[u].directory == old(booking)[u].directory && defined[u].home == old(booking)[u].home
      ensures code == SUCCESS && u !in old(booking) ==>
                defined[u].directory == defaultDirectory && defined[u].home == ""
      ensures code == SUCCESS && u in old(booking) && old(booking)[u].Kept? ==> defined[u] == old(booking)[u].vm
    {
      created := None;
      if u in defined || u in undeclared {
        return ALREADY_REGISTERED, None;
      }
      var vm: Option<Vm?>;
      if u in booking {
        var b := booking[u];
        booking := booking - {u};
        match b
        case Kept(kept) =>
          vm := Some(kept);
        case Declared(directory, home) =>
          vm := Create(u, directory);
          if vm.Some? {
            vm.value.SetHome(home);
          }
          created := vm;
      } else {
        vm := Create(u, defaultDirectory);
        created := vm;
        assert booking - {u} == booking;
      }
      if vm.None? {
        return FAILURE, created;
      }
      defined := defined[u := vm.value];
      code := SUCCESS;
    }

    method Undefine(u: string)
      requires Valid()
      modifies this
      ensures Valid()
      ensures View() == Undefining(old(View()), u)
      ensures defined == old(defined) - {u} && booking == old(booking)
      ensures undeclared == if u in old(defined) then old(undeclared) else old(undeclared) - {u}
      ensures dropped == old(dropped) + if u in old(defined) then {u} else {}
    {
      var vm := if u in defined then defined[u] else null;
      defined := defined - {u};
      if vm == null {
        undeclared := undeclared - {u};
        return;
      }
      dropped := dropped + {u};
    }

    method Reset(items: seq<Item>)
      requires Valid()
      modifies this, Machines()
      ensures Valid() && dropped == old(dropped)
      ensures View() == Resetting(old(View()), items)
      ensures forall u :: u in old(defined) ==>
                            old(defined)[u].home == HomeAfter(items, u, old(defined[u].home))
    {
      ghost var m0 := View().(defined := map[]);
      var before := defined;
      defined := map[];
      for k := 0 to |items|
        invariant View() == RebookAll(m0, before, items[..k])
        invariant Valid() && InFlight(View(), before) && dropped == old(dropped)
        invariant forall u :: u in before ==> before[u].home == HomeAfter(items[..k], u, old(defined[u].home))
      {
        assert items[..k + 1][..k] == items[..k];
        BookItem(before, items[k]);
      }
      assert items[..|items|] == items;
    }

    /** One turn of the loop over the directory. */
    method BookItem(before: map<string, Vm?>, i: Item)
      requires Valid() && InFlight(View(), before)
      modifies this, set u | u in before :: before[u]
      ensures Valid() && InFlight(View(), before) && dropped == old(dropped)
      ensures View() == Rebook(old(View()), before, i)
      ensures forall u :: u in before ==>
                            before[u].home == if !i.skipped && i.uuid == u then i.home else old(before[u].home)
    {
      RebookInv(View(), before, i);
      if i.skipped {
        return;
      }
      var vm := if i.uuid in before then before[i.uuid] else null;
      if vm == null {
        var _ := Declare(i.uuid, i.directory, i.home);
      } else {
        vm.SetHome(i.home);
        booking := booking[i.uuid := Kept(vm)];
      }
    }

    method Snapshot() returns (s: seq<string>)
      requires Valid()
      ensures forall u :: u in s <==> u in defined || u in undeclared
      ensures forall i, j :: 0 <= i < j < |s| ==> s[i] != s[j]
    {
      s := [];
      var d, n := defined.Keys, undeclared.Keys;
      while d != {}
        invariant d <= defined.Keys
        invariant forall u :: u in s <==> u in defined.Keys - d
        invariant forall i, j :: 0 <= i < j < |s| ==> s[i] != s[j]
        decreases d
      {
        var u :| u in d;
        assert u !in s;
        s, d := s + [u], d - {u};
      }
      while n != {}
        invariant n <= undeclared.Keys
        invariant forall u :: u in s <==> u in defined.Keys || u in undeclared.Keys - n
        invariant forall i, j :: 0 <= i < j < |s| ==> s[i] != s[j]
        decreases n
      {
        var u :| u in n;
        assert u !in s;
        s, n := s + [u], n - {u};
      }
    }
  }
}
