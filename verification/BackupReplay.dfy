/** What the script of a difference means: carried out, it takes the attached disks of the
    old configuration to those of the new one. */
module BackupReplay {
  import opened Results
  import opened BackupDevice

  /** No two disks share an index. */
  ghost predicate Unique(s: seq<Disk>) {
    forall i, j :: 0 <= i < j < |s| ==> s[i].index != s[j].index
  }

  /** The map {index -> enabled} of a configuration. */
  function Configured(s: seq<Disk>): Attached {
    map i | i in Indices(s) :: At(s, i).enabled && At(s, i).connected
  }

  // ---------------------------------------------------------------- order does not matter

  lemma {:induction false} AtMember(s: seq<Disk>, d: Disk)
    requires Unique(s) && d in s
    ensures At(s, d.index) == d
  {
    if s[0] != d {
      assert d in s[1..];
      var k :| 0 <= k < |s[1..]| && s[1..][k] == d;
      assert s[k + 1] == d;
      AtMember(s[1..], d);
    }
  }

  lemma CountAtLeastTwo(s: seq<Disk>, i: nat, j: nat)
    requires i < j < |s| && s[i] == s[j]
    ensures multiset(s)[s[i]] >= 2
  {
    assert s == s[..j] + s[j..];
    assert s[i] in s[..j] && s[j] in s[j..];
    assert multiset(s)[s[i]] == multiset(s[..j])[s[i]] + multiset(s[j..])[s[i]];
  }

  lemma {:induction false} CountAtMostOne(s: seq<Disk>, d: Disk)
    requires Unique(s)
    ensures multiset(s)[d] <= 1
  {
    if s != [] {
      assert s == [s[0]] + s[1..];
      CountAtMostOne(s[1..], d);
      assert s[0] !in s[1..] by {
        assert forall k :: 0 <= k < |s[1..]| ==> s[1..][k] == s[k + 1];
      }
    }
  }

  lemma UniquePermuted(s: seq<Disk>, t: seq<Disk>)
    requires Unique(s) && multiset(s) == multiset(t)
    ensures Unique(t)
  {
    SameIndices(s, t);
    forall i, j | 0 <= i < j < |t| ensures t[i].index != t[j].index {
      if t[i].index == t[j].index {
        AtMember(s, t[i]);
        AtMember(s, t[j]);
        CountAtLeastTwo(t, i, j);
        CountAtMostOne(s, t[i]);
      }
    }
  }

  lemma ConfiguredPermuted(s: seq<Disk>, t: seq<Disk>)
    requires Unique(s) && multiset(s) == multiset(t)
    ensures Configured(s) == Configured(t)
  {
    SameIndices(s, t);
    UniquePermuted(s, t);
    forall i | i in Indices(s) ensures At(s, i) == At(t, i) {
      var d :| d in s && d.index == i;
      AtMember(s, d);
      AtMember(t, d);
    }
  }

  lemma {:induction false} ChosenMembers(store: seq<Disk>, enabled: bool)
    ensures forall d :: d in Chosen(store, enabled) <==> d in store && IsKindOf(d) && IsEnabled(d) == enabled
    ensures Unique(store) ==> Unique(Chosen(store, enabled))
  {
    if store != [] {
      ChosenMembers(store[1..], enabled);
      assert store == [store[0]] + store[1..];
      if Unique(store) {
        assert forall d :: d in store[1..] ==> d.index != store[0].index;
      }
    }
  }

  /** The backup disks of a configuration are exactly those with a backup URL. */
  lemma AllMembers(store: seq<Disk>)
    ensures forall d :: d in All(store) <==> d in store && d.url.Some? && d.url.value.scheme == "backup"
    ensures Unique(store) ==> Unique(All(store))
  {
    ChosenMembers(store, true);
    ChosenMembers(store, false);
    if Unique(store) {
      var a, b := Chosen(store, true), Chosen(store, false);
      forall i, j | 0 <= i < |a| && 0 <= j < |b| ensures a[i].index != b[j].index {
        assert a[i] in a && b[j] in b;
        AtMember(store, a[i]);
        AtMember(store, b[j]);
      }
    }
  }

  // ---------------------------------------------------------------- replay

  /** The entry of one index. */
  function Look(st: Attached, i: int): Option<bool> {
    if i in st then Some(st[i]) else None
  }

  lemma {:induction false} NovelReplay(s: seq<Disk>, other: set<int>, st: Attached, i: int)
    requires Unique(s)
    ensures Look(Replay(st, NovelScript(s, other)), i) ==
            if i in Indices(s) && i !in other then Some(IsEnabled(At(s, i))) else Look(st, i)
  {
    if s != [] {
      var head := if s[0].index in other then [] else Novel(s[0]);
      ReplayAppend(st, head, NovelScript(s[1..], other));
      NovelReplay(s[1..], other, Replay(st, head), i);
      HeadApart(s);
      ReplayNovel(st, s[0]);
    }
  }

  lemma ReplayNovel(st: Attached, d: Disk)
    ensures Replay(st, Novel(d)) == st[d.index := IsEnabled(d)]
  {
    ReplayAppend(st, [Setup(d)], if IsEnabled(d) then [] else [Disable(d)]);
    assert [Setup(d)][1..] == [] && [Disable(d)][1..] == [];
    assert Replay(st, [Setup(d)]) == Replay(Effect(st, Setup(d)), []);
    if !IsEnabled(d) {
      assert Replay(st[d.index := true], [Disable(d)]) == Replay(st[d.index := true][d.index := false], []);
    }
  }

  lemma HeadApart(s: seq<Disk>)
    requires s != [] && Unique(s)
    ensures Unique(s[1..]) && s[0].index !in Indices(s[1..]) && Indices(s) == {s[0].index} + Indices(s[1..])
  {
    assert s == [s[0]] + s[1..];
  }

  lemma {:induction false} RemovedReplay(vm: VmType, s: seq<Disk>, other: set<int>, st: Attached, i: int)
    ensures Look(Replay(st, RemovedScript(vm, s, other)), i) ==
            if i in Indices(s) && i !in other then None else Look(st, i)
  {
    if s != [] {
      var head := if s[0].index in other then [] else Removed(vm, s[0]);
      ReplayAppend(st, head, RemovedScript(vm, s[1..], other));
      RemovedReplay(vm, s[1..], other, Replay(st, head), i);
      assert s == [s[0]] + s[1..];
      assert Indices(s) == {s[0].index} + Indices(s[1..]);
      assert Removed(vm, s[0])[1..] == [];
    }
  }

  lemma {:induction false} UpdatedReplay(s: seq<Disk>, other: seq<Disk>, st: Attached, i: int)
    requires Unique(s)
    requires forall d :: d in s && d.index in Indices(other) ==> Look(st, d.index) == Some(IsEnabled(d))
    ensures Look(Replay(st, UpdatedScript(s, other)), i) ==
            if i in Indices(s) && i in Indices(other) then Some(IsEnabled(At(other, i))) else Look(st, i)
  {
    if s != [] {
      var head := if s[0].index in Indices(other) then Updated(s[0], At(other, s[0].index)) else [];
      var st' := Replay(st, head);
      ReplayAppend(st, head, UpdatedScript(s[1..], other));
      HeadApart(s);
      assert s[0] in s;
      UpdatedOne(st, s[0], other);
      forall d | d in s[1..] && d.index in Indices(other) ensures Look(st', d.index) == Some(IsEnabled(d)) {
        assert d in s && d.index in Indices(s[1..]);
      }
      UpdatedReplay(s[1..], other, st', i);
    }
  }

  lemma UpdatedOne(st: Attached, d: Disk, other: seq<Disk>)
    requires d.index in Indices(other) ==> Look(st, d.index) == Some(IsEnabled(d))
    ensures var st' := Replay(st, if d.index in Indices(other) then Updated(d, At(other, d.index)) else []);
            forall i :: Look(st', i) == if i == d.index && i in Indices(other) then Some(IsEnabled(At(other, i)))
                                        else Look(st, i)
  {
    if d.index in Indices(other) {
      var y := At(other, d.index);
      AtIndex(other, d.index);
      assert [Enable(y)][1..] == [] && [Disable(y)][1..] == [];
    }
  }

  lemma {:induction false} AtIndex(s: seq<Disk>, i: int)
    requires i in Indices(s)
    ensures At(s, i).index == i && At(s, i) in s
  {
    if s[0].index != i {
      assert s == [s[0]] + s[1..];
      AtIndex(s[1..], i);
    }
  }

  /** Replacing and then removing takes {old index -> enabled} to exactly {new index -> enabled}. */
  lemma ScriptMeaning(vm: VmType, from: seq<Disk>, to: seq<Disk>)
    requires Unique(from) && Unique(to)
    ensures Replay(Configured(from), Script(vm, from, to)) == Configured(to)
  {
    var st := Configured(from);
    var novel, updated := NovelScript(to, Indices(from)), UpdatedScript(from, to);
    var removed := RemovedScript(vm, from, Indices(to));
    ReplayAppend(st, novel, updated);
    ReplayAppend(st, novel + updated, removed);
    var st1 := Replay(st, novel);
    var st2 := Replay(st1, updated);
    forall d | d in from && d.index in Indices(to) ensures Look(st1, d.index) == Some(IsEnabled(d)) {
      NovelReplay(to, Indices(from), st, d.index);
      AtMember(from, d);
    }
    forall i: int ensures Look(Replay(st2, removed), i) == Look(Configured(to), i) {
      NovelReplay(to, Indices(from), st, i);
      UpdatedReplay(from, to, st1, i);
      RemovedReplay(vm, from, Indices(to), st2, i);
    }
    SameLooks(Replay(st2, removed), Configured(to));
  }

  lemma SameLooks(a: Attached, b: Attached)
    requires forall i :: Look(a, i) == Look(b, i)
    ensures a == b
  {
    forall i ensures i in a <==> i in b {
      assert Look(a, i) == Look(b, i);
    }
    forall i | i in a ensures a[i] == b[i] {
      assert Look(a, i) == Look(b, i);
    }
  }

  // ---------------------------------------------------------------- each event once

  lemma CountJoined<T>(a: seq<T>, b: seq<T>, x: T)
    ensures multiset(a + b)[x] == multiset(a)[x] + multiset(b)[x]
  {
  }

  lemma CountHead(s: seq<Disk>, d: Disk)
    requires s != []
    ensures multiset(s)[d] == (if s[0] == d then 1 else 0) + multiset(s[1..])[d]
  {
    assert s == [s[0]] + s[1..];
    CountJoined([s[0]], s[1..], d);
  }

  lemma CountNovel(c: Disk, d: Disk)
    ensures multiset(Novel(c))[Setup(d)] == if c == d then 1 else 0
    ensures multiset(Novel(c))[Disable(d)] == if c == d && !IsEnabled(d) then 1 else 0
  {
  }

  lemma {:induction false} NovelExactly(s: seq<Disk>, other: set<int>, d: Disk)
    ensures multiset(NovelScript(s, other))[Setup(d)] == if d.index in other then 0 else multiset(s)[d]
    ensures multiset(NovelScript(s, other))[Disable(d)] ==
            if d.index in other || IsEnabled(d) then 0 else multiset(s)[d]
  {
    if s != [] {
      var head := if s[0].index in other then [] else Novel(s[0]);
      NovelExactly(s[1..], other, d);
      CountJoined(head, NovelScript(s[1..], other), Setup(d));
      CountJoined(head, NovelScript(s[1..], other), Disable(d));
      CountHead(s, d);
      CountNovel(s[0], d);
    }
  }

  lemma {:induction false} NovelKinds(s: seq<Disk>, other: set<int>, e: Event)
    requires e in NovelScript(s, other)
    ensures e.Setup? || e.Disable?
  {
    if s[0].index in other || e !in Novel(s[0]) {
      NovelKinds(s[1..], other, e);
    }
  }

  lemma {:induction false} RemovedExactly(vm: VmType, s: seq<Disk>, other: set<int>, d: Disk)
    ensures multiset(RemovedScript(vm, s, other))[if vm.Machine? then Teardown(d) else Cleanup(d)] ==
            if d.index in other then 0 else multiset(s)[d]
  {
    if s != [] {
      var event := if vm.Machine? then Teardown(d) else Cleanup(d);
      var head := if s[0].index in other then [] else Removed(vm, s[0]);
      RemovedExactly(vm, s[1..], other, d);
      CountJoined(head, RemovedScript(vm, s[1..], other), event);
      CountHead(s, d);
    }
  }

  lemma {:induction false} RemovedKinds(vm: VmType, s: seq<Disk>, other: set<int>, e: Event)
    requires e in RemovedScript(vm, s, other)
    ensures if vm.Machine? then e.Teardown? else e.Cleanup?
  {
    if s[0].index in other || e !in Removed(vm, s[0]) {
      RemovedKinds(vm, s[1..], other, e);
    }
  }

  lemma {:induction false} UpdatedKinds(s: seq<Disk>, other: seq<Disk>, e: Event)
    requires e in UpdatedScript(s, other)
    ensures (e.Enable? || e.Disable?) && e.disk in other
  {
    if s[0].index in Indices(other) && e in Updated(s[0], At(other, s[0].index)) {
      AtIndex(other, s[0].index);
    } else {
      UpdatedKinds(s[1..], other, e);
    }
  }

  lemma CountUpdated(s: seq<Disk>, other: seq<Disk>, d: Disk)
    requires s != [] && Unique(other) && d in other
    ensures var head := if s[0].index in Indices(other) then Updated(s[0], At(other, s[0].index)) else [];
            var was, now, same := IsEnabled(s[0]), IsEnabled(d), s[0].index == d.index;
            && multiset(head)[Enable(d)] == (if same && !was && now then 1 else 0)
            && multiset(head)[Disable(d)] == (if same && was && !now then 1 else 0)
  {
    AtMember(other, d);
    if s[0].index in Indices(other) {
      AtIndex(other, s[0].index);
    }
  }

  /** The old disks with this index and this state. */
  function Before(s: seq<Disk>, index: int, enabled: bool): nat {
    if s == [] then 0
    else (if s[0].index == index && (s[0].enabled && s[0].connected) == enabled then 1 else 0) +
         Before(s[1..], index, enabled)
  }

  lemma {:induction false} UpdatedExactly(s: seq<Disk>, other: seq<Disk>, d: Disk)
    requires Unique(other) && d in other
    ensures multiset(UpdatedScript(s, other))[Enable(d)] == if IsEnabled(d) then Before(s, d.index, false) else 0
    ensures multiset(UpdatedScript(s, other))[Disable(d)] == if IsEnabled(d) then 0 else Before(s, d.index, true)
  {
    if s != [] {
      var head := if s[0].index in Indices(other) then Updated(s[0], At(other, s[0].index)) else [];
      UpdatedExactly(s[1..], other, d);
      CountJoined(head, UpdatedScript(s[1..], other), Enable(d));
      CountJoined(head, UpdatedScript(s[1..], other), Disable(d));
      CountUpdated(s, other, d);
    }
  }

  lemma {:induction false} BeforeOnce(s: seq<Disk>, c: Disk, enabled: bool)
    requires Unique(s) && c in s
    ensures Before(s, c.index, enabled) == if (c.enabled && c.connected) == enabled then 1 else 0
  {
    if s[0] == c {
      HeadApart(s);
      BeforeNone(s[1..], c.index, enabled);
    } else {
      HeadApart(s);
      assert c in s[1..] && c.index in Indices(s[1..]);
      BeforeOnce(s[1..], c, enabled);
    }
  }

  lemma {:induction false} BeforeNone(s: seq<Disk>, index: int, enabled: bool)
    requires index !in Indices(s)
    ensures Before(s, index, enabled) == 0
  {
    if s != [] {
      assert s[0] in s && s == [s[0]] + s[1..];
      assert forall d :: d in s[1..] ==> d in s;
      BeforeNone(s[1..], index, enabled);
    }
  }

  /** For a common disk `c` before and `d` after, the new disk is enabled once if it was not
      enabled and now is, disabled once in the opposite case, and else neither. */
  lemma UpdatedOnce(old_: seq<Disk>, new_: seq<Disk>, from: seq<Disk>, to: seq<Disk>, c: Disk, d: Disk)
    requires Unique(old_) && Unique(new_) && multiset(from) == multiset(old_) && multiset(to) == multiset(new_)
    requires c in old_ && d in new_ && c.index == d.index
    ensures var was, now := c.enabled && c.connected, d.enabled && d.connected;
            && multiset(UpdatedScript(from, to))[Enable(d)] == (if !was && now then 1 else 0)
            && multiset(UpdatedScript(from, to))[Disable(d)] == (if was && !now then 1 else 0)
  {
    UniquePermuted(old_, from);
    UniquePermuted(new_, to);
    SameIndices(old_, from);
    SameIndices(new_, to);
    UpdatedExactly(from, to, d);
    BeforeOnce(from, c, true);
    BeforeOnce(from, c, false);
  }

  /** Whatever order the partitions leave, a set-up is emitted for exactly the new disks whose
      index is absent from the old list, and a removal for exactly the old ones whose index is
      absent from the new list, each once. */
  lemma EmittedOnce(vm: VmType, old_: seq<Disk>, new_: seq<Disk>, from: seq<Disk>, to: seq<Disk>, d: Disk)
    requires Unique(old_) && Unique(new_) && multiset(from) == multiset(old_) && multiset(to) == multiset(new_)
    ensures multiset(NovelScript(to, Indices(from)))[Setup(d)] ==
            if d in new_ && d.index !in Indices(old_) then 1 else 0
    ensures multiset(RemovedScript(vm, from, Indices(to)))[if vm.Machine? then Teardown(d) else Cleanup(d)] ==
            if d in old_ && d.index !in Indices(new_) then 1 else 0
  {
    SameIndices(from, old_);
    SameIndices(to, new_);
    NovelExactly(to, Indices(from), d);
    RemovedExactly(vm, from, Indices(to), d);
    CountAtMostOne(old_, d);
    CountAtMostOne(new_, d);
    assert d in old_ <==> d in multiset(old_);
    assert d in new_ <==> d in multiset(new_);
  }

  /** The event a difference of these configurations calls for. */
  ghost predicate CalledFor(vm: VmType, old_: seq<Disk>, new_: seq<Disk>, e: Event) {
    var on := (d: Disk) => d.enabled && d.connected;
    match e
    case Setup(d) => d in new_ && d.index !in Indices(old_)
    case Enable(d) => d in new_ && on(d) && exists c :: c in old_ && c.index == d.index && !on(c)
    case Disable(d) =>
      d in new_ && !on(d) && (d.index !in Indices(old_) || exists c :: c in old_ && c.index == d.index && on(c))
    case Teardown(d) => vm.Machine? && d in old_ && d.index !in Indices(new_)
    case Cleanup(d) => vm.Container? && d in old_ && d.index !in Indices(new_)
  }

  /** Whatever order the partitions leave, the script holds exactly the events the difference
      calls for, each once. */
  lemma ScriptExactly(vm: VmType, old_: seq<Disk>, new_: seq<Disk>, from: seq<Disk>, to: seq<Disk>, e: Event)
    requires Unique(old_) && Unique(new_) && multiset(from) == multiset(old_) && multiset(to) == multiset(new_)
    ensures multiset(Script(vm, from, to))[e] == if CalledFor(vm, old_, new_, e) then 1 else 0
  {
    var a, b, c := NovelScript(to, Indices(from)), UpdatedScript(from, to), RemovedScript(vm, from, Indices(to));
    CountJoined(a, b, e);
    CountJoined(a + b, c, e);
    SameIndices(from, old_);
    SameIndices(to, new_);
    NovelCalledFor(vm, old_, new_, from, to, e);
    UpdatedCalledFor(vm, old_, new_, from, to, e);
    RemovedCalledFor(vm, old_, new_, from, to, e);
  }

  lemma NovelCalledFor(vm: VmType, old_: seq<Disk>, new_: seq<Disk>, from: seq<Disk>, to: seq<Disk>, e: Event)
    requires Unique(old_) && Unique(new_) && multiset(from) == multiset(old_) && multiset(to) == multiset(new_)
    ensures multiset(NovelScript(to, Indices(from)))[e] ==
            if e.disk.index !in Indices(old_) && (e.Setup? || e.Disable?) && CalledFor(vm, old_, new_, e) then 1 else 0
  {
    SameIndices(from, old_);
    CountAtMostOne(new_, e.disk);
    assert e.disk in new_ <==> e.disk in multiset(new_);
    match e
    case Setup(d) => NovelExactly(to, Indices(from), d);
    case Disable(d) => NovelExactly(to, Indices(from), d);
    case _ =>
      if e in NovelScript(to, Indices(from)) {
        NovelKinds(to, Indices(from), e);
      }
  }

  lemma RemovedCalledFor(vm: VmType, old_: seq<Disk>, new_: seq<Disk>, from: seq<Disk>, to: seq<Disk>, e: Event)
    requires Unique(old_) && Unique(new_) && multiset(from) == multiset(old_) && multiset(to) == multiset(new_)
    ensures multiset(RemovedScript(vm, from, Indices(to)))[e] ==
            if (e.Teardown? || e.Cleanup?) && CalledFor(vm, old_, new_, e) then 1 else 0
  {
    SameIndices(to, new_);
    CountAtMostOne(old_, e.disk);
    assert e.disk in old_ <==> e.disk in multiset(old_);
    if if vm.Machine? then e.Teardown? else e.Cleanup? {
      RemovedExactly(vm, from, Indices(to), e.disk);
    } else if e in RemovedScript(vm, from, Indices(to)) {
      RemovedKinds(vm, from, Indices(to), e);
    }
  }

  lemma UpdatedCalledFor(vm: VmType, old_: seq<Disk>, new_: seq<Disk>, from: seq<Disk>, to: seq<Disk>, e: Event)
    requires Unique(old_) && Unique(new_) && multiset(from) == multiset(old_) && multiset(to) == multiset(new_)
    ensures multiset(UpdatedScript(from, to))[e] ==
            if e.disk.index in Indices(old_) && (e.Enable? || e.Disable?) && CalledFor(vm, old_, new_, e) then 1 else 0
  {
    SameIndices(from, old_);
    SameIndices(to, new_);
    var d := e.disk;
    if (e.Enable? || e.Disable?) && d in new_ && d.index in Indices(old_) {
      var c :| c in old_ && c.index == d.index;
      UpdatedOnce(old_, new_, from, to, c, d);
      forall x | x in old_ && x.index == d.index ensures x == c {
        AtMember(old_, x);
        AtMember(old_, c);
      }
    } else if e in UpdatedScript(from, to) {
      UpdatedKinds(from, to, e);
      UpdatedPhase(from, from, to, e);
    }
  }

  // ---------------------------------------------------------------- the order of the script

  /** Whether an index is new, common to both configurations, or gone. */
  function Phase(from: seq<Disk>, to: seq<Disk>, index: int): nat {
    if index !in Indices(from) then 0 else if index in Indices(to) then 1 else 2
  }

  lemma {:induction false} NovelPhase(s: seq<Disk>, from: seq<Disk>, to: seq<Disk>, e: Event)
    requires e in NovelScript(s, Indices(from))
    ensures Phase(from, to, e.disk.index) == 0
  {
    if s[0].index in Indices(from) || e !in Novel(s[0]) {
      NovelPhase(s[1..], from, to, e);
    }
  }

  lemma {:induction false} UpdatedPhase(s: seq<Disk>, from: seq<Disk>, to: seq<Disk>, e: Event)
    requires e in UpdatedScript(s, to) && Indices(s) <= Indices(from)
    ensures Phase(from, to, e.disk.index) == 1
  {
    assert s[0] in s && forall d :: d in s[1..] ==> d in s;
    if s[0].index in Indices(to) && e in Updated(s[0], At(to, s[0].index)) {
      AtIndex(to, s[0].index);
    } else {
      UpdatedPhase(s[1..], from, to, e);
    }
  }

  lemma {:induction false} RemovedPhase(vm: VmType, s: seq<Disk>, from: seq<Disk>, to: seq<Disk>, e: Event)
    requires e in RemovedScript(vm, s, Indices(to)) && Indices(s) <= Indices(from)
    ensures Phase(from, to, e.disk.index) == 2
  {
    assert s[0] in s && forall d :: d in s[1..] ==> d in s;
    if s[0].index in Indices(to) || e !in Removed(vm, s[0]) {
      RemovedPhase(vm, s[1..], from, to, e);
    }
  }

  /** New disks are served first, then those that stay, and what is removed comes last. */
  lemma InPhases(vm: VmType, from: seq<Disk>, to: seq<Disk>, i: nat, j: nat)
    requires i < j < |Script(vm, from, to)|
    ensures var es := Script(vm, from, to);
            Phase(from, to, es[i].disk.index) <= Phase(from, to, es[j].disk.index)
  {
    PhaseAt(vm, from, to, i);
    PhaseAt(vm, from, to, j);
  }

  lemma PhaseAt(vm: VmType, from: seq<Disk>, to: seq<Disk>, i: nat)
    requires i < |Script(vm, from, to)|
    ensures var a, b := |NovelScript(to, Indices(from))|, |UpdatedScript(from, to)|;
            Phase(from, to, Script(vm, from, to)[i].disk.index) == if i < a then 0 else if i < a + b then 1 else 2
  {
    var a, b := NovelScript(to, Indices(from)), UpdatedScript(from, to);
    var e := Script(vm, from, to)[i];
    if i < |a| {
      assert e == a[i];
      NovelPhase(to, from, to, e);
    } else if i < |a| + |b| {
      assert e == b[i - |a|];
      UpdatedPhase(from, from, to, e);
    } else {
      assert e == RemovedScript(vm, from, Indices(to))[i - |a| - |b|];
      RemovedPhase(vm, from, from, to, e);
    }
  }

  // ---------------------------------------------------------------- validation

  /** Validation succeeds if partners share a path and no two new disks of different index
      share a non-empty one. A partner with another path is reported first. */
  lemma Validated(from: seq<Disk>, to: seq<Disk>)
    ensures var path := (d: Disk) => if d.url.Some? then d.url.value.path else "";
            var kept := forall d, c :: d in from && c in to && d.index == c.index ==> path(d) == path(c);
            var apart := forall d, c :: d in to && c in to && path(d) == path(c) != "" ==> d.index == c.index;
            && (Verdict(from, to) == SUCCESS <==> kept && apart)
            && (Verdict(from, to) == URL_CHANGE_PROHIBITED <==> !kept)
            && (Verdict(from, to) == ALREADY_ATTACHED <==> kept && !apart)
            && (Failed(Verdict(from, to)) <==> Verdict(from, to) != SUCCESS)
  {
  }

  // ---------------------------------------------------------------- the service

  class Transition {
    const diff: Difference
    const visitor: Visitor

    constructor (diff: Difference, visitor: Visitor)
      ensures this.diff == diff && this.visitor == visitor
    {
      this.diff, this.visitor := diff, visitor;
    }

    method Replace() returns (code: Code)
      requires diff.Valid()
      modifies diff, visitor
      ensures diff.Valid()
      ensures Failed(Verdict(diff.from[..], diff.to[..])) ==>
                code == Verdict(diff.from[..], diff.to[..]) && visitor.attached == old(visitor.attached)
      ensures !Failed(Verdict(diff.from[..], diff.to[..])) ==>
                Ran(ReplaceScript(diff.from[..], diff.to[..]), old(visitor.attached), visitor.attached, code)
    {
      ghost var from, to := diff.from[..], diff.to[..];
      var b;
      code, b := diff.GetNovel([]);
      assert diff.from[..] == from && diff.to[..] == to;
      if Failed(code) {
        return;
      }
      assert b == NovelScript(to, Indices(from));
      code, b := diff.GetUpdated(b);
      assert diff.from[..] == from && diff.to[..] == to;
      if Failed(code) {
        return;
      }
      assert b == ReplaceScript(from, to);
      code := RunBatch(b, visitor);
    }

    method Remove() returns (code: Code)
      requires diff.Valid()
      modifies diff, visitor
      ensures diff.Valid()
      ensures Failed(Verdict(diff.from[..], diff.to[..])) ==>
                code == Verdict(diff.from[..], diff.to[..]) && visitor.attached == old(visitor.attached)
      ensures !Failed(Verdict(diff.from[..], diff.to[..])) ==>
                Ran(RemovedScript(diff.vm, diff.from[..], Indices(diff.to[..])),
                    old(visitor.attached), visitor.attached, code)
    {
      var b;
      code, b := diff.GetRemoved([]);
      if Failed(code) {
        return;
      }
      assert b == RemovedScript(diff.vm, diff.from[..], Indices(diff.to[..]));
      code := RunBatch(b, visitor);
    }
  }

  lemma RanTwice(a: seq<Event>, b: seq<Event>, s0: Attached, s1: Attached, s2: Attached, c1: Code, c2: Code)
    requires Ran(a, s0, s1, c1)
    ensures Failed(c1) ==> Ran(a + b, s0, s1, c1)
    ensures !Failed(c1) && Ran(b, s1, s2, c2) ==> Ran(a + b, s0, s2, c2)
  {
    var n: nat :| RanTo(a, n, s0, s1, c1);
    if Failed(c1) {
      assert (a + b)[..n] == a[..n];
      assert RanTo(a + b, n, s0, s1, c1);
    } else if Ran(b, s1, s2, c2) {
      var k: nat :| RanTo(b, k, s1, s2, c2);
      assert a[..n] == a;
      assert (a + b)[..n + k] == a + b[..k];
      ReplayAppend(s0, a, b[..k]);
      assert RanTo(a + b, n + k, s0, s2, c2);
    }
  }

  /** Service::setDifference: from a state that matches the old configuration, success means
      the state matches the new one; a failed visit leaves the state a prefix of the script
      leads to; a failed validation changes nothing. */
  method SetDifference(vm: VmType, before: seq<Disk>, after: seq<Disk>, visitor: Visitor) returns (code: Code)
    requires Unique(before) && Unique(after)
    modifies visitor
    ensures Failed(Verdict(All(before), All(after))) ==>
              code == Verdict(All(before), All(after)) && visitor.attached == old(visitor.attached)
    ensures !Failed(code) && old(visitor.attached) == Configured(All(before)) ==>
              visitor.attached == Configured(All(after))
    ensures !Failed(Verdict(All(before), All(after))) ==>
              exists from, to :: multiset(from) == multiset(All(before)) && multiset(to) == multiset(All(after)) &&
                                 Ran(Script(vm, from, to), old(visitor.attached), visitor.attached, code)
  {
    var diff := new Difference(vm, All(before), All(after));
    var transition := new Transition(diff, visitor);
    ghost var from, to, s0 := diff.from[..], diff.to[..], visitor.attached;
    AllMembers(before);
    AllMembers(after);
    UniquePermuted(All(before), from);
    UniquePermuted(All(after), to);
    ConfiguredPermuted(All(before), from);
    ConfiguredPermuted(All(after), to);
    VerdictPermuted(All(before), All(after), from, to);
    ScriptMeaning(vm, from, to);
    code := transition.Replace();
    ghost var s1, c1 := visitor.attached, code;
    if Failed(code) {
      if !Failed(Verdict(from, to)) {
        RanTwice(ReplaceScript(from, to), RemovedScript(vm, from, Indices(to)), s0, s1, s1, c1, c1);
      }
      return;
    }
    code := transition.Remove();
    RanTwice(ReplaceScript(from, to), RemovedScript(vm, from, Indices(to)), s0, s1, visitor.attached, c1, code);
    assert Ran(Script(vm, from, to), s0, visitor.attached, code);
    assert Script(vm, from, to)[..|Script(vm, from, to)|] == Script(vm, from, to);
  }

  lemma VerdictPermuted(a: seq<Disk>, b: seq<Disk>, from: seq<Disk>, to: seq<Disk>)
    requires multiset(a) == multiset(from) && multiset(b) == multiset(to)
    ensures Verdict(a, b) == Verdict(from, to)
  {
    SameIndices(a, from);
    SameIndices(b, to);
  }
}
