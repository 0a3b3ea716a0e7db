/** Disks attached from backups: the difference of two configurations, the script of events
    it stands for, and the visits that carry the script out. */
module BackupDevice {
  import opened Results

  /** A storage URL; a disk without one, or with an invalid one, has none. */
  datatype Url = Url(scheme: string, path: string)

  datatype Disk = Disk(index: int, enabled: bool, connected: bool, url: Option<Url>)

  datatype Event =
    | Setup(disk: Disk)
    | Enable(disk: Disk)
    | Disable(disk: Disk)
    | Teardown(disk: Disk)
    | Cleanup(disk: Disk)

  datatype VmType = Machine | Container

  // ---------------------------------------------------------------- findings

  function UrlPath(d: Disk): string {
    if d.url.Some? then d.url.value.path else ""
  }

  predicate IsKindOf(d: Disk) {
    d.url.Some? && d.url.value.scheme == "backup"
  }

  predicate IsEnabled(d: Disk) {
    d.enabled && d.connected
  }

  function Indices(s: seq<Disk>): set<int> {
    set d | d in s :: d.index
  }

  /** Dao::getAll: the backup disks of a configuration, the enabled ones first. */
  function All(store: seq<Disk>): seq<Disk> {
    Chosen(store, true) + Chosen(store, false)
  }

  function Chosen(store: seq<Disk>, enabled: bool): seq<Disk> {
    if store == [] then []
    else (if IsKindOf(store[0]) && IsEnabled(store[0]) == enabled then [store[0]] else []) + Chosen(store[1..], enabled)
  }

  // ---------------------------------------------------------------- the script

  function Novel(d: Disk): seq<Event> {
    [Setup(d)] + if IsEnabled(d) then [] else [Disable(d)]
  }

  function Removed(vm: VmType, d: Disk): seq<Event> {
    if vm.Machine? then [Teardown(d)] else [Cleanup(d)]
  }

  function Updated(before: Disk, after: Disk): seq<Event> {
    if IsEnabled(after) == IsEnabled(before) then [] else if IsEnabled(after) then [Enable(after)] else [Disable(after)]
  }

  /** The first disk with this index. */
  function At(s: seq<Disk>, index: int): Disk
    requires index in Indices(s)
  {
    if s[0].index == index then s[0] else At(s[1..], index)
  }

  function NovelScript(s: seq<Disk>, other: set<int>): seq<Event> {
    if s == [] then []
    else (if s[0].index in other then [] else Novel(s[0])) + NovelScript(s[1..], other)
  }

  function RemovedScript(vm: VmType, s: seq<Disk>, other: set<int>): seq<Event> {
    if s == [] then []
    else (if s[0].index in other then [] else Removed(vm, s[0])) + RemovedScript(vm, s[1..], other)
  }

  function UpdatedScript(s: seq<Disk>, other: seq<Disk>): seq<Event> {
    if s == [] then []
    else (if s[0].index in Indices(other) then Updated(s[0], At(other, s[0].index)) else []) +
         UpdatedScript(s[1..], other)
  }

  function ReplaceScript(from: seq<Disk>, to: seq<Disk>): seq<Event> {
    NovelScript(to, Indices(from)) + UpdatedScript(from, to)
  }

  function Script(vm: VmType, from: seq<Disk>, to: seq<Disk>): seq<Event> {
    ReplaceScript(from, to) + RemovedScript(vm, from, Indices(to))
  }

  // ---------------------------------------------------------------- validation

  ghost predicate Modified(from: seq<Disk>, to: seq<Disk>) {
    exists d, c :: d in from && c in to && c.index == d.index && UrlPath(c) != UrlPath(d)
  }

  ghost predicate Duplicated(to: seq<Disk>) {
    exists d, c :: d in to && c in to && c.index != d.index && UrlPath(d) != "" && UrlPath(c) == UrlPath(d)
  }

  ghost function Verdict(from: seq<Disk>, to: seq<Disk>): Code {
    if Modified(from, to) then URL_CHANGE_PROHIBITED
    else if Duplicated(to) then ALREADY_ATTACHED
    else SUCCESS
  }

  // ---------------------------------------------------------------- visits

  /** Which disks are attached, and whether enabled. */
  type Attached = map<int, bool>

  function Effect(st: Attached, e: Event): Attached {
    match e
    case Setup(d) => st[d.index := true]
    case Enable(d) => st[d.index := true]
    case Disable(d) => st[d.index := false]
    case Teardown(d) => st - {d.index}
    case Cleanup(d) => st - {d.index}
  }

  function Replay(st: Attached, es: seq<Event>): Attached
    decreases |es|
  {
    if es == [] then st else Replay(Effect(st, es[0]), es[1..])
  }

  /** Carries events out; the answers of the system are `answers(0)`, `answers(1)`, ... */
  class Visitor {
    const answers: nat -> Code
    var visits: nat
    var attached: Attached

    constructor (answers: nat -> Code, attached: Attached)
      ensures this.answers == answers && visits == 0 && this.attached == attached
    {
      this.answers, visits, this.attached := answers, 0, attached;
    }

    method Visit(e: Event) returns (code: Code)
      modifies this
      ensures code == answers(old(visits)) && visits == old(visits) + 1
      ensures attached == if Failed(code) then old(attached) else Effect(old(attached), e)
    {
      code := answers(visits);
      visits := visits + 1;
      if !Failed(code) {
        attached := Effect(attached, e);
      }
    }
  }

  /** Visiting `es` from the `first` answer on: how many events are carried out. */
  function CarriedOut(answers: nat -> Code, first: nat, es: seq<Event>): nat
    decreases |es|
  {
    if es == [] || Failed(answers(first)) then 0 else 1 + CarriedOut(answers, first + 1, es[1..])
  }

  /** A prefix of `es` was carried out, all of it exactly when the code is not a failure. */
  ghost predicate Ran(es: seq<Event>, before: Attached, after: Attached, code: Code) {
    exists n: nat :: RanTo(es, n, before, after, code)
  }

  ghost predicate RanTo(es: seq<Event>, n: nat, before: Attached, after: Attached, code: Code) {
    n <= |es| && after == Replay(before, es[..n]) && (!Failed(code) <==> n == |es|)
  }

  /** Details::Batch::operator() */
  method RunBatch(es: seq<Event>, visitor: Visitor) returns (code: Code)
    modifies visitor
    ensures var n := CarriedOut(visitor.answers, old(visitor.visits), es);
            && n <= |es|
            && visitor.attached == Replay(old(visitor.attached), es[..n])
            && (!Failed(code) <==> n == |es|)
            && visitor.visits == old(visitor.visits) + n + (if n < |es| then 1 else 0)
            && (n < |es| ==> code == visitor.answers(old(visitor.visits) + n))
    ensures Ran(es, old(visitor.attached), visitor.attached, code)
  {
    code := SUCCESS;
    ghost var first := visitor.visits;
    assert es[0..] == es;
    for k := 0 to |es|
      invariant visitor.visits == first + k && !Failed(code)
      invariant visitor.attached == Replay(old(visitor.attached), es[..k])
      invariant CarriedOut(visitor.answers, first, es) == k + CarriedOut(visitor.answers, first + k, es[k..])
    {
      assert es[k..][0] == es[k] && es[k..][1..] == es[k + 1..];
      assert es[..k + 1] == es[..k] + [es[k]];
      ReplayAppend(old(visitor.attached), es[..k], [es[k]]);
      code := visitor.Visit(es[k]);
      if Failed(code) {
        assert RanTo(es, k, old(visitor.attached), visitor.attached, code);
        return;
      }
    }
    assert es[..|es|] == es;
    assert RanTo(es, |es|, old(visitor.attached), visitor.attached, code);
  }

  lemma {:induction false} ReplayAppend(st: Attached, a: seq<Event>, b: seq<Event>)
    ensures Replay(st, a + b) == Replay(Replay(st, a), b)
    decreases |a|
  {
    if a == [] {
      assert a + b == b;
    } else {
      assert (a + b)[0] == a[0] && (a + b)[1..] == a[1..] + b;
      ReplayAppend(Effect(st, a[0]), a[1..], b);
    }
  }

  // ---------------------------------------------------------------- the difference

  /** Nothing out of range comes before anything in range. */
  ghost predicate Partitioned(s: seq<Disk>, range: set<int>) {
    forall i, j :: 0 <= i < j < |s| && s[j].index in range ==> s[i].index in range
  }

  /** std::partition by IndexInRange, in place. */
  method Partition(a: array<Disk>, range: set<int>)
    modifies a
    ensures multiset(a[..]) == multiset(old(a[..]))
    ensures Partitioned(a[..], range)
  {
    var lo, hi := 0, a.Length;
    while lo < hi
      invariant 0 <= lo <= hi <= a.Length
      invariant forall i :: 0 <= i < lo ==> a[i].index in range
      invariant forall i :: hi <= i < a.Length ==> a[i].index !in range
      invariant multiset(a[..]) == multiset(old(a[..]))
    {
      if a[lo].index in range {
        lo := lo + 1;
      } else {
        hi := hi - 1;
        a[lo], a[hi] := a[hi], a[lo];
      }
    }
  }

  class Difference {
    const vm: VmType
    const from: array<Disk>
    const to: array<Disk>
    var result: Code
    var validated: bool

    ghost predicate Valid()
      reads this, from, to
    {
      && Partitioned(from[..], Indices(to[..])) && Partitioned(to[..], Indices(from[..]))
      && (validated ==> result == Verdict(from[..], to[..]))
    }

    constructor (vm: VmType, from: seq<Disk>, to: seq<Disk>)
      ensures Valid() && fresh(this.from) && fresh(this.to) && this.vm == vm
      ensures multiset(this.from[..]) == multiset(from) && multiset(this.to[..]) == multiset(to)
    {
      this.vm := vm;
      var f := new Disk[|from|](i requires 0 <= i < |from| => from[i]);
      var t := new Disk[|to|](i requires 0 <= i < |to| => to[i]);
      this.from, this.to, validated, result := f, t, false, UNINITIALIZED;
      new;
      assert f[..] == from && t[..] == to;
      Partition(t, Indices(f[..]));
      SameIndices(t[..], to);
      Partition(f, Indices(t[..]));
      SameIndices(f[..], from);
    }

    method Validate() returns (code: Code)
      requires Valid()
      modifies this
      ensures Valid() && validated && code == Verdict(from[..], to[..])
    {
      if !validated {
        result := Check(from[..], to[..]);
        validated := true;
      }
      return result;
    }

    /** The position of the first disk out of range; everything from there on is. */
    method FirstOutside(a: array<Disk>, range: set<int>) returns (n: nat)
      requires Partitioned(a[..], range)
      ensures n <= a.Length
      ensures forall i :: 0 <= i < a.Length ==> (a[i].index in range <==> i < n)
    {
      n := 0;
      while n < a.Length && a[n].index in range
        invariant n <= a.Length
        invariant forall i :: 0 <= i < n ==> a[i].index in range
      {
        n := n + 1;
      }
      assert n < a.Length ==> a[..][n] == a[n];
      forall i | n <= i < a.Length ensures a[i].index !in range {
        assert a[..][i] == a[i];
      }
    }

    method GetNovel(batch: seq<Event>) returns (code: Code, out: seq<Event>)
      requires Valid()
      modifies this
      ensures Valid() && code == Verdict(from[..], to[..])
      ensures out == batch + if Failed(code) then [] else NovelScript(to[..], Indices(from[..]))
    {
      out := batch;
      code := Validate();
      if Failed(code) {
        return;
      }
      var n := FirstOutside(to, Indices(from[..]));
      NovelNone(to[..n], Indices(from[..]));
      for k := n to to.Length
        invariant Valid() && out == batch + NovelScript(to[..k], Indices(from[..]))
      {
        assert to[..k + 1] == to[..k] + [to[k]];
        NovelAppend(to[..k], to[k], Indices(from[..]));
        out := out + Novel(to[k]);
      }
      assert to[..to.Length] == to[..];
    }

    method GetRemoved(batch: seq<Event>) returns (code: Code, out: seq<Event>)
      requires Valid()
      modifies this
      ensures Valid() && code == Verdict(from[..], to[..])
      ensures out == batch + if Failed(code) then [] else RemovedScript(vm, from[..], Indices(to[..]))
    {
      out := batch;
      code := Validate();
      if Failed(code) {
        return;
      }
      var n := FirstOutside(from, Indices(to[..]));
      RemovedNone(vm, from[..n], Indices(to[..]));
      for k := n to from.Length
        invariant Valid() && out == batch + RemovedScript(vm, from[..k], Indices(to[..]))
      {
        assert from[..k + 1] == from[..k] + [from[k]];
        RemovedAppend(vm, from[..k], from[k], Indices(to[..]));
        out := out + Removed(vm, from[k]);
      }
      assert from[..from.Length] == from[..];
    }

    method GetUpdated(batch: seq<Event>) returns (code: Code, out: seq<Event>)
      requires Valid()
      modifies this
      ensures Valid() && code == Verdict(from[..], to[..])
      ensures out == batch + if Failed(code) then [] else UpdatedScript(from[..], to[..])
    {
      out := batch;
      code := Validate();
      if Failed(code) {
        return;
      }
      var a := FirstOutside(from, Indices(to[..]));
      var b := FirstOutside(to, Indices(from[..]));
      var events := Pairs(a, b);
      UpdatedNone(from[a..], to[..]);
      assert from[..a] + from[a..] == from[..];
      UpdatedJoin(from[..a], from[a..], to[..]);
      out := out + events;
    }

    /** The loop over the first `a` old disks, those with a partner among the first `b` new ones. */
    method Pairs(a: nat, b: nat) returns (out: seq<Event>)
      requires a <= from.Length && forall k :: 0 <= k < a ==> from[k].index in Indices(to[..])
      requires b <= to.Length && forall i :: 0 <= i < to.Length ==> (to[i].index in Indices(from[..]) <==> i < b)
      ensures out == UpdatedScript(from[..a], to[..])
    {
      out := [];
      for k := 0 to a
        invariant out == UpdatedScript(from[..k], to[..])
      {
        assert from[k] in from[..];
        assert from[..k + 1] == from[..k] + [from[k]];
        UpdatedAppend(from[..k], from[k], to[..]);
        var y := FindPartner(from[k].index, b);
        out := out + Updated(from[k], to[y]);
      }
    }

    /** The search among the first `b` new disks never runs off their end. */
    method FindPartner(index: int, b: nat) returns (y: nat)
      requires index in Indices(to[..]) && index in Indices(from[..])
      requires b <= to.Length && forall i :: 0 <= i < to.Length ==> (to[i].index in Indices(from[..]) <==> i < b)
      ensures y < b && to[y].index == index && to[y] == At(to[..], index)
    {
      y := 0;
      assert to[0..] == to[..];
      while to[y].index != index
        invariant y < b && index in Indices(to[y..]) && At(to[..], index) == At(to[y..], index)
        decreases b - y
      {
        assert to[y..] == [to[y]] + to[y + 1..];
        PartnerAhead(to[..], y + 1, index);
        y := y + 1;
      }
      assert to[y..][0] == to[y];
    }
  }

  lemma PartnerAhead(s: seq<Disk>, y: nat, index: int)
    requires y <= |s| && index in Indices(s[y..])
    ensures exists i :: y <= i < |s| && s[i].index == index
  {
    var d :| d in s[y..] && d.index == index;
    var i :| 0 <= i < |s[y..]| && s[y..][i] == d;
    assert s[y + i] == d;
  }

  lemma SameIndices(s: seq<Disk>, t: seq<Disk>)
    requires multiset(s) == multiset(t)
    ensures Indices(s) == Indices(t) && forall d :: d in s <==> d in t
  {
    assert forall d :: d in s <==> d in multiset(s);
    assert forall d :: d in t <==> d in multiset(t);
  }

  /** Validator */
  method Check(from: seq<Disk>, to: seq<Disk>) returns (code: Code)
    ensures code == Verdict(from, to)
  {
    for i := 0 to |from|
      invariant !Modified(from[..i], to)
    {
      assert from[..i + 1] == from[..i] + [from[i]];
      for j := 0 to |to|
        invariant forall c :: c in to[..j] ==> !(c.index == from[i].index && UrlPath(c) != UrlPath(from[i]))
      {
        assert to[..j + 1] == to[..j] + [to[j]];
        if to[j].index == from[i].index && UrlPath(to[j]) != UrlPath(from[i]) {
          assert from[i] in from && to[j] in to;
          return URL_CHANGE_PROHIBITED;
        }
      }
      assert to[..|to|] == to;
    }
    assert from[..|from|] == from;
    for i := 0 to |to|
      invariant forall d, c :: d in to[..i] && c in to ==>
                                 !(c.index != d.index && UrlPath(d) != "" && UrlPath(c) == UrlPath(d))
    {
      assert to[..i + 1] == to[..i] + [to[i]];
      if UrlPath(to[i]) == "" {
        continue;
      }
      for j := 0 to |to|
        invariant forall c :: c in to[..j] ==> !(c.index != to[i].index && UrlPath(c) == UrlPath(to[i]))
      {
        assert to[..j + 1] == to[..j] + [to[j]];
        if to[j].index != to[i].index && UrlPath(to[j]) == UrlPath(to[i]) {
          assert to[i] in to && to[j] in to;
          return ALREADY_ATTACHED;
        }
      }
      assert to[..|to|] == to;
    }
    assert to[..|to|] == to;
    return SUCCESS;
  }

  // ---------------------------------------------------------------- scripts piece by piece

  lemma {:induction false} NovelNone(s: seq<Disk>, other: set<int>)
    requires forall d :: d in s ==> d.index in other
    ensures NovelScript(s, other) == []
  {
    if s != [] {
      assert s[0] in s && forall d :: d in s[1..] ==> d in s;
      NovelNone(s[1..], other);
    }
  }

  lemma {:induction false} NovelAppend(s: seq<Disk>, d: Disk, other: set<int>)
    ensures NovelScript(s + [d], other) == NovelScript(s, other) + if d.index in other then [] else Novel(d)
  {
    if s == [] {
      assert [d][1..] == [];
      assert NovelScript([], other) == [];
    } else {
      assert (s + [d])[0] == s[0] && (s + [d])[1..] == s[1..] + [d];
      NovelAppend(s[1..], d, other);
    }
  }

  lemma {:induction false} RemovedNone(vm: VmType, s: seq<Disk>, other: set<int>)
    requires forall d :: d in s ==> d.index in other
    ensures RemovedScript(vm, s, other) == []
  {
    if s != [] {
      assert s[0] in s && forall d :: d in s[1..] ==> d in s;
      RemovedNone(vm, s[1..], other);
    }
  }

  lemma {:induction false} RemovedAppend(vm: VmType, s: seq<Disk>, d: Disk, other: set<int>)
    ensures RemovedScript(vm, s + [d], other) ==
            RemovedScript(vm, s, other) + if d.index in other then [] else Removed(vm, d)
  {
    if s == [] {
      assert [d][1..] == [];
      assert RemovedScript(vm, [], other) == [];
    } else {
      assert (s + [d])[0] == s[0] && (s + [d])[1..] == s[1..] + [d];
      RemovedAppend(vm, s[1..], d, other);
    }
  }

  lemma {:induction false} UpdatedNone(s: seq<Disk>, other: seq<Disk>)
    requires forall d :: d in s ==> d.index !in Indices(other)
    ensures UpdatedScript(s, other) == []
  {
    if s != [] {
      assert s[0] in s && forall d :: d in s[1..] ==> d in s;
      UpdatedNone(s[1..], other);
    }
  }

  lemma {:induction false} UpdatedJoin(s: seq<Disk>, t: seq<Disk>, other: seq<Disk>)
    ensures UpdatedScript(s + t, other) == UpdatedScript(s, other) + UpdatedScript(t, other)
  {
    if s == [] {
      assert s + t == t;
    } else {
      assert (s + t)[0] == s[0] && (s + t)[1..] == s[1..] + t;
      UpdatedJoin(s[1..], t, other);
    }
  }

  lemma UpdatedAppend(s: seq<Disk>, d: Disk, other: seq<Disk>)
    requires d.index in Indices(other)
    ensures UpdatedScript(s + [d], other) == UpdatedScript(s, other) + Updated(d, At(other, d.index))
  {
    UpdatedJoin(s, [d], other);
    assert [d][1..] == [];
    assert UpdatedScript([d], other) == Updated(d, At(other, d.index));
  }
}
