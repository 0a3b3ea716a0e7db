/** Moving USB associations from the stored identities to the identities the host reports. */
module UsbTransfer {
  import opened Results

  /** An identity's associations, each opaque. */
  datatype Identity = Identity(name: string, associations: seq<int>)

  class Preferences {
    var identities: seq<Identity>

    constructor (identities: seq<Identity>)
      ensures this.identities == identities
    {
      this.identities := identities;
    }
  }

  // ---------------------------------------------------------------- specification

  /** The associations stored under each name; names without any are left out. */
  function Gathered(ids: seq<Identity>): map<string, seq<int>> {
    if ids == [] then map[]
    else
      var m, i := Gathered(ids[..|ids| - 1]), ids[|ids| - 1];
      if i.associations == [] then m else m[i.name := Under(m, i.name) + i.associations]
  }

  function Under(m: map<string, seq<int>>, name: string): seq<int> {
    if name in m then m[name] else []
  }

  /** All that is stored for this name, in order. */
  function Of(ids: seq<Identity>, name: string): seq<int>
    decreases |ids|
  {
    if ids == [] then []
    else
      var i := ids[|ids| - 1];
      Of(ids[..|ids| - 1], name) + if i.name == name then i.associations else []
  }

  /** The names something is stored for. */
  function Names(ids: seq<Identity>): set<string> {
    set i | i in ids && i.associations != [] :: i.name
  }

  /** What is gathered under a name is what is stored for that name, and for nobody else. */
  lemma {:induction false} GatheredOf(ids: seq<Identity>, name: string)
    ensures Under(Gathered(ids), name) == Of(ids, name)
    ensures name in Gathered(ids) <==> Of(ids, name) != []
    ensures name in Gathered(ids) <==> name in Names(ids)
    decreases |ids|
  {
    if ids != [] {
      var init, i := ids[..|ids| - 1], ids[|ids| - 1];
      GatheredOf(init, name);
      assert ids == init + [i];
      assert name in Names(ids) <==> name in Names(init) || (i.associations != [] && i.name == name);
    }
  }

  function Total(ids: seq<Identity>): multiset<int> {
    if ids == [] then multiset{} else Total(ids[..|ids| - 1]) + multiset(ids[|ids| - 1].associations)
  }

  ghost function Sum(m: map<string, seq<int>>): multiset<int>
    decreases |m|
  {
    if m == map[] then multiset{}
    else
      var k :| k in m;
      multiset(m[k]) + Sum(m - {k})
  }

  /** Every reported identity holds the whole list of the name it came from, which names the
      same device, or nothing; no name is used twice, and the names used are those of `used`. */
  ghost predicate Assigned(ids: seq<Identity>, source: seq<Option<string>>, m: map<string, seq<int>>,
                           used: set<string>, same: (string, string) -> bool)
  {
    && |source| == |ids|
    && (forall i :: 0 <= i < |ids| ==>
          match source[i]
          case None => ids[i].associations == []
          case Some(k) => k in m && same(ids[i].name, k) && ids[i].associations == m[k])
    && (forall i, j :: 0 <= i < j < |ids| && source[i].Some? ==> source[i] != source[j])
    && (forall k :: k in used <==> Some(k) in source)
  }

  /** Every reported identity holds all that was stored for one name, judged the same device,
      or nothing; nothing that was stored is left out or handed out twice. */
  ghost predicate Carried(ids: seq<Identity>, source: seq<Option<string>>, stored: seq<Identity>,
                          same: (string, string) -> bool)
  {
    && |source| == |ids|
    && (forall i :: 0 <= i < |ids| ==>
          match source[i]
          case None => ids[i].associations == []
          case Some(k) => k in Names(stored) && same(ids[i].name, k) && ids[i].associations == Of(stored, k))
    && (forall i, j :: 0 <= i < j < |ids| && source[i].Some? ==> source[i] != source[j])
    && (forall k :: k in Names(stored) ==> Some(k) in source)
  }

  lemma AssignedCarried(ids: seq<Identity>, source: seq<Option<string>>, m: map<string, seq<int>>,
                        stored: seq<Identity>, same: (string, string) -> bool)
    requires Assigned(ids, source, m, m.Keys, same)
    requires m.Keys == Names(stored) && forall k :: k in m ==> m[k] == Of(stored, k)
    ensures Carried(ids, source, stored, same)
  {
  }

  /** Each reported identity is judged the same as at most one of the stored names. */
  ghost predicate Unambiguous(names: set<string>, ids: seq<Identity>, same: (string, string) -> bool) {
    forall i, k, l :: 0 <= i < |ids| && k in names && l in names && same(ids[i].name, k) && same(ids[i].name, l) ==>
                        k == l
  }

  ghost predicate Recognised(names: set<string>, ids: seq<Identity>, same: (string, string) -> bool) {
    forall k :: k in names ==> exists i :: 0 <= i < |ids| && same(ids[i].name, k)
  }

  // ---------------------------------------------------------------- implementation

  /** The first loop of Usb::Job::operator(). */
  method Collect(w: seq<Identity>) returns (m: map<string, seq<int>>)
    ensures m.Keys == Names(w) && (forall name :: name in m ==> m[name] == Of(w, name) != [])
    ensures m == Gathered(w) && Sum(m) == Total(w)
  {
    m := map[];
    for i := 0 to |w|
      invariant m == Gathered(w[..i]) && Sum(m) == Total(w[..i])
    {
      assert w[..i + 1][..i] == w[..i];
      if w[i].associations != [] {
        SumAppend(m, w[i].name, w[i].associations);
        m := m[w[i].name := Under(m, w[i].name) + w[i].associations];
      }
    }
    assert w[..|w|] == w;
    forall name ensures (name in m <==> name in Names(w)) && (name in m ==> m[name] == Of(w, name) != []) {
      GatheredOf(w, name);
    }
  }

  /** The second loop: which of several matching names an identity takes depends on the order
      of a hash, so it is left open here. `rest` is what nobody took. */
  method Distribute(update: seq<Identity>, m: map<string, seq<int>>, same: (string, string) -> bool)
    returns (u: seq<Identity>, rest: map<string, seq<int>>, ghost source: seq<Option<string>>)
    ensures |u| == |update| && forall j :: 0 <= j < |u| ==> u[j].name == update[j].name
    ensures rest.Keys <= m.Keys && rest == m - (m.Keys - rest.Keys)
    ensures Assigned(u, source, m, m.Keys - rest.Keys, same)
    ensures Sum(rest) + Total(u) == Sum(m)
    ensures Passed(u, source, rest.Keys, same)
  {
    u, rest, source := [], m, [];
    ghost var used: set<string> := {};
    assert m - {} == m;
    for i := 0 to |update|
      invariant Progress(update[..i], u, rest, source, m, used, same)
    {
      var name := update[i].name;
      assert update[..i + 1] == update[..i] + [update[i]];
      if k :| k in rest && same(name, k) {
        var taken := rest[k];
        TakeSome(update[..i], u, rest, source, m, used, same, update[i], k);
        u, rest, source, used := u + [Identity(name, taken)], rest - {k}, source + [Some(k)], used + {k};
      } else {
        TakeNone(update[..i], u, rest, source, m, used, same, update[i]);
        u, source := u + [Identity(name, [])], source + [None];
      }
    }
    assert update[..|update|] == update;
    assert m.Keys - rest.Keys == used;
  }

  /** The identities of `update` have been served; `rest` is what the names in `used` left. */
  ghost predicate Progress(update: seq<Identity>, u: seq<Identity>, rest: map<string, seq<int>>,
                           source: seq<Option<string>>, m: map<string, seq<int>>, used: set<string>,
                           same: (string, string) -> bool)
  {
    && |u| == |update| && (forall j :: 0 <= j < |u| ==> u[j].name == update[j].name)
    && rest == m - used && used <= m.Keys
    && Assigned(u, source, m, used, same)
    && Passed(u, source, rest.Keys, same)
    && Sum(rest) + Total(u) == Sum(m)
  }

  lemma TakeSome(update: seq<Identity>, u: seq<Identity>, rest: map<string, seq<int>>,
                 source: seq<Option<string>>, m: map<string, seq<int>>, used: set<string>,
                 same: (string, string) -> bool, next: Identity, k: string)
    requires Progress(update, u, rest, source, m, used, same)
    requires k in rest && same(next.name, k)
    ensures Progress(update + [next], u + [Identity(next.name, rest[k])], rest - {k}, source + [Some(k)],
                     m, used + {k}, same)
  {
    var identity := Identity(next.name, rest[k]);
    SumRemove(rest, k);
    MinusTwice(m, used, k);
    AssignedOne(u, source, m, used, same, identity, Some(k));
    PassedOne(u, source, (rest - {k}).Keys, same, identity, Some(k));
    TotalSnoc(u, identity);
  }

  lemma TakeNone(update: seq<Identity>, u: seq<Identity>, rest: map<string, seq<int>>,
                 source: seq<Option<string>>, m: map<string, seq<int>>, used: set<string>,
                 same: (string, string) -> bool, next: Identity)
    requires Progress(update, u, rest, source, m, used, same)
    requires forall k :: k in rest ==> !same(next.name, k)
    ensures Progress(update + [next], u + [Identity(next.name, [])], rest, source + [None], m, used, same)
  {
    AssignedOne(u, source, m, used, same, Identity(next.name, []), None);
    PassedOne(u, source, rest.Keys, same, Identity(next.name, []), None);
    TotalSnoc(u, Identity(next.name, []));
  }

  lemma MinusTwice(m: map<string, seq<int>>, used: set<string>, k: string)
    ensures m - used - {k} == m - (used + {k})
  {
  }

  lemma TotalSnoc(ids: seq<Identity>, i: Identity)
    ensures Total(ids + [i]) == Total(ids) + multiset(i.associations)
  {
    assert (ids + [i])[..|ids|] == ids;
  }

  /** Whoever recognises a name that is still there has taken another one. */
  ghost predicate Passed(u: seq<Identity>, source: seq<Option<string>>, rest: set<string>,
                         same: (string, string) -> bool) {
    |source| == |u| && forall j, k :: 0 <= j < |u| && k in rest && same(u[j].name, k) ==> Takes(source, j)
  }

  predicate Takes(source: seq<Option<string>>, i: nat) {
    i < |source| && source[i].Some?
  }

  lemma PassedOne(u: seq<Identity>, source: seq<Option<string>>, rest: set<string>, same: (string, string) -> bool,
                  identity: Identity, from: Option<string>)
    requires Passed(u, source, rest, same)
    requires from.None? ==> forall k :: k in rest ==> !same(identity.name, k)
    ensures Passed(u + [identity], source + [from], rest, same)
  {
  }

  lemma AssignedOne(u: seq<Identity>, source: seq<Option<string>>, m: map<string, seq<int>>, used: set<string>,
                    same: (string, string) -> bool, identity: Identity, from: Option<string>)
    requires Assigned(u, source, m, used, same)
    requires from.None? ==> identity.associations == []
    requires from.Some? ==> from.value in m && from.value !in used && same(identity.name, from.value) &&
                            identity.associations == m[from.value]
    ensures Assigned(u + [identity], source + [from], m, if from.Some? then used + {from.value} else used, same)
  {
    assert forall i :: 0 <= i < |source| && source[i].Some? ==> source[i] in source && source[i].value in used;
    assert forall x :: x in source + [from] <==> x in source || x == from;
  }

  /** Usb::Job::operator() */
  method Transfer(update: seq<Identity>, dst: Preferences, same: (string, string) -> bool)
    returns (code: Code, ghost source: seq<Option<string>>)
    modifies dst
    ensures code == SUCCESS || code == UNEXPECTED
    ensures code != SUCCESS ==> dst.identities == old(dst.identities)
    ensures code == SUCCESS ==>
              && Total(dst.identities) == Total(old(dst.identities))
              && |dst.identities| == |update|
              && (forall i :: 0 <= i < |update| ==> dst.identities[i].name == update[i].name)
              && Carried(dst.identities, source, old(dst.identities), same)
    ensures var names := Names(old(dst.identities));
            && (code == SUCCESS ==> Recognised(names, update, same))
            && (Unambiguous(names, update, same) ==> (code == SUCCESS <==> Recognised(names, update, same)))
  {
    var m := Collect(dst.identities);
    var u, rest;
    u, rest, source := Distribute(update, m, same);
    ghost var used := m.Keys - rest.Keys;
    SourcesRecognise(update, u, source, m, used, same);
    if rest != map[] {
      assert exists k :: k in rest.Keys;
      if Unambiguous(m.Keys, update, same) && Recognised(m.Keys, update, same) {
        LeftOver(update, u, source, m, used, same);
      }
      return UNEXPECTED, source;
    }
    assert used == m.Keys;
    AssignedCarried(u, source, m, dst.identities, same);
    dst.identities := u;
    return SUCCESS, source;
  }

  lemma SourcesRecognise(update: seq<Identity>, u: seq<Identity>, source: seq<Option<string>>,
                         m: map<string, seq<int>>, used: set<string>, same: (string, string) -> bool)
    requires |u| == |update| && forall j :: 0 <= j < |u| ==> u[j].name == update[j].name
    requires Assigned(u, source, m, used, same)
    ensures Recognised(used, update, same)
  {
    forall k | k in used ensures exists i :: 0 <= i < |update| && same(update[i].name, k) {
      var i :| 0 <= i < |source| && source[i] == Some(k);
      assert same(update[i].name, k);
    }
  }

  /** An identity that recognises an unused name has taken another one, which then it
      recognises as well. */
  lemma LeftOver(update: seq<Identity>, u: seq<Identity>, source: seq<Option<string>>,
                 m: map<string, seq<int>>, used: set<string>, same: (string, string) -> bool)
    requires |u| == |update| && forall j :: 0 <= j < |u| ==> u[j].name == update[j].name
    requires Assigned(u, source, m, used, same)
    requires Passed(u, source, m.Keys - used, same)
    requires Unambiguous(m.Keys, update, same) && Recognised(m.Keys, update, same)
    ensures m.Keys <= used
  {
    forall k | k in m ensures k in used {
      var i :| 0 <= i < |update| && same(update[i].name, k);
      assert u[i].name == update[i].name;
      assert k in m.Keys - used ==> Takes(source, i);
      if source[i].Some? {
        var l := source[i].value;
        assert l in m && same(update[i].name, l) && l == k;
        assert source[i] in source;
      }
    }
  }

  // ---------------------------------------------------------------- sums over maps

  lemma {:induction false} SumRemove(m: map<string, seq<int>>, k: string)
    requires k in m
    ensures Sum(m) == multiset(m[k]) + Sum(m - {k})
    decreases |m|
  {
    var l :| l in m && Sum(m) == multiset(m[l]) + Sum(m - {l});
    if l != k {
      SumRemove(m - {l}, k);
      SumRemove(m - {k}, l);
      assert m - {l} - {k} == m - {k} - {l};
    }
  }

  lemma SumAppend(m: map<string, seq<int>>, name: string, more: seq<int>)
    ensures Sum(m[name := Under(m, name) + more]) == Sum(m) + multiset(more)
  {
    var all := Under(m, name) + more;
    var n := m[name := all];
    SumRemove(n, name);
    assert multiset(all) == multiset(Under(m, name)) + multiset(more);
    SumUnder(m, name);
    assert n - {name} == m - {name};
    Shuffled(multiset(Under(m, name)), multiset(more), Sum(m - {name}));
  }

  lemma Shuffled(a: multiset<int>, b: multiset<int>, c: multiset<int>)
    ensures a + b + c == a + c + b
  {
  }

  lemma SumUnder(m: map<string, seq<int>>, name: string)
    ensures Sum(m) == multiset(Under(m, name)) + Sum(m - {name})
  {
    if name in m {
      SumRemove(m, name);
    } else {
      assert m - {name} == m;
    }
  }
}
