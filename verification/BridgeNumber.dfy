/** Choosing a name for a new bridge: `br` and a 32-bit number nobody uses yet. */
module BridgeNumber {
  import opened Results

  const WORD: nat := 0x1_0000_0000

  type uint32 = n: nat | n < WORD

  // ---------------------------------------------------------------- decimal numbers

  function Digit(d: nat): char
    requires d < 10
  {
    '0' + d as char
  }

  function Decimal(n: nat): string {
    if n < 10 then [Digit(n)] else Decimal(n / 10) + [Digit(n % 10)]
  }

  predicate IsNumber(s: string) {
    s != [] && forall i :: 0 <= i < |s| ==> '0' <= s[i] <= '9'
  }

  function Value(s: string): nat
    requires forall i :: 0 <= i < |s| ==> '0' <= s[i] <= '9'
  {
    if s == [] then 0 else 10 * Value(s[..|s| - 1]) + (s[|s| - 1] - '0') as nat
  }

  /** QString::toUInt: 0 for a number that does not fit. What it makes of a text that is not
      just digits is `odd`. */
  function ToUInt(s: string, odd: string -> uint32): uint32 {
    if !IsNumber(s) then odd(s) else if Value(s) < WORD then Value(s) else 0
  }

  lemma {:induction false} DecimalRoundTrip(n: nat)
    ensures IsNumber(Decimal(n)) && Value(Decimal(n)) == n
  {
    if n < 10 {
      assert Decimal(n)[..0] == [];
    } else {
      DecimalRoundTrip(n / 10);
      var s := Decimal(n);
      assert s[..|s| - 1] == Decimal(n / 10);
    }
  }

  // ---------------------------------------------------------------- names

  /** QString::mid(2). */
  function Mid2(s: string): string {
    if |s| <= 2 then "" else s[2..]
  }

  function Suffix(name: string, odd: string -> uint32): uint32 {
    ToUInt(Mid2(name), odd)
  }

  function Name(x: uint32): string {
    "br" + Decimal(x)
  }

  lemma NameSuffix(x: uint32, odd: string -> uint32)
    ensures Suffix(Name(x), odd) == x
  {
    DecimalRoundTrip(x);
    assert Name(x)[2..] == Decimal(x);
  }

  function Plus1(x: uint32): uint32 {
    (x + 1) % WORD
  }

  function Minus1(x: uint32): uint32 {
    (x - 1) % WORD
  }

  function Max(x: uint32, y: uint32): uint32 {
    if x < y then y else x
  }

  // ---------------------------------------------------------------- the search

  /** How an attempt to define a bridge ends: the description cannot be made, libvirt
      refuses the name, or it accepts it. */
  datatype Attempt = Unmade | Refused | Accepted

  /** The suffixes that count: all but the greatest 32-bit number, whose successor is 0. */
  function Counting(names: seq<string>, odd: string -> uint32): set<uint32> {
    set n | n in names && Suffix(n, odd) != WORD - 1 :: Suffix(n, odd)
  }

  /** One past the greatest number used, and 0 if none is. */
  ghost predicate Past(x: uint32, used: set<uint32>) {
    if used == {} then x == 0
    else x > 0 && x - 1 in used && forall n :: n in used ==> n < x
  }

  /** The first candidate is one past the greatest suffix that counts. */
  ghost predicate First(x: uint32, names: seq<string>, odd: string -> uint32) {
    Past(x, Counting(names, odd))
  }

  lemma PastOneMore(x: uint32, used: set<uint32>, n: uint32)
    requires Past(x, used) && n != WORD - 1
    ensures Past(Max(x, n + 1), used + {n})
  {
    if x > n + 1 {
      assert x - 1 in used + {n};
    } else {
      assert n in used + {n};
    }
  }

  lemma CountingExtends(names: seq<string>, name: string, odd: string -> uint32)
    ensures Counting(names + [name], odd) ==
            Counting(names, odd) + if Suffix(name, odd) == WORD - 1 then {} else {Suffix(name, odd)}
  {
    assert forall m :: m in names + [name] <==> m in names || m == name;
  }

  lemma Successor(n: uint32)
    ensures Plus1(n) == if n == WORD - 1 then 0 else n + 1
    ensures Plus1(Minus1(n)) == n
  {
  }

  lemma FirstExtends(x: uint32, names: seq<string>, name: string, odd: string -> uint32)
    requires First(x, names, odd)
    ensures First(Max(x, Plus1(Suffix(name, odd))), names + [name], odd)
  {
    var n := Suffix(name, odd);
    CountingExtends(names, name, odd);
    Successor(n);
    if n == WORD - 1 {
      assert Counting(names, odd) + {} == Counting(names, odd);
    } else {
      PastOneMore(x, Counting(names, odd), n);
    }
  }

  /** The number the search starts after. */
  method Last(names: seq<string>, odd: string -> uint32) returns (x: uint32)
    ensures First(Plus1(x), names, odd)
  {
    x := WORD - 1;
    assert Counting([], odd) == {};
    for i := 0 to |names|
      invariant First(Plus1(x), names[..i], odd)
    {
      assert names[..i + 1] == names[..i] + [names[i]];
      FirstExtends(Plus1(x), names[..i], names[i], odd);
      Successor(Max(Plus1(x), Plus1(Suffix(names[i], odd))));
      x := Minus1(Max(Plus1(x), Plus1(Suffix(names[i], odd))));
    }
    assert names[..|names|] == names;
  }

  /** The names asked for are `br` and the candidate in decimal. */
  predicate Asks(asked: seq<string>, tried: seq<uint32>) {
    |asked| == |tried| && forall i :: 0 <= i < |asked| ==> asked[i] == "br" + Decimal(tried[i])
  }

  predicate Consecutive(tried: seq<uint32>) {
    forall i :: 0 < i < |tried| ==> tried[i] == (tried[i - 1] + 1) % WORD
  }

  lemma ConsecutiveNext(tried: seq<uint32>, x: uint32)
    requires Consecutive(tried) && (tried != [] ==> x == Plus1(tried[|tried| - 1]))
    ensures Consecutive(tried + [x])
  {
  }

  lemma AsksNext(asked: seq<string>, tried: seq<uint32>, x: uint32)
    requires Asks(asked, tried)
    ensures Asks(asked + [Name(x)], tried + [x])
  {
  }

  /** Frontend::define from the list of existing names on; the attempts end as `attempts`
      says, and the search is still going on when they run out. Returns the candidates tried
      and the names asked for. */
  method Define(names: seq<string>, odd: string -> uint32, attempts: seq<Attempt>)
    returns (code: Option<Code>, tried: seq<uint32>, asked: seq<string>)
    ensures |tried| > 0 ==> First(tried[0], names, odd)
    ensures Consecutive(tried)
    ensures |tried| <= |attempts| && (code.None? ==> |tried| == |attempts|)
    ensures forall i :: 0 <= i < |tried| - 1 ==> attempts[i].Refused?
    ensures code.Some? ==> |tried| > 0 && !attempts[|tried| - 1].Refused? &&
                           code.value == if attempts[|tried| - 1].Accepted? then SUCCESS else BAD_CONFIG
    ensures Asks(asked, tried)
    ensures code.None? ==> forall i :: 0 <= i < |tried| ==> attempts[i].Refused?
  {
    tried, asked := [], [];
    var x := Last(names, odd);
    ghost var first := Plus1(x);
    for k := 0 to |attempts|
      invariant |tried| == k && Asks(asked, tried)
      invariant if k == 0 then Plus1(x) == first else tried[0] == first && tried[k - 1] == x
      invariant Consecutive(tried)
      invariant forall i :: 0 <= i < k ==> attempts[i].Refused?
    {
      x := Plus1(x);
      AsksNext(asked, tried, x);
      ConsecutiveNext(tried, x);
      tried, asked := tried + [x], asked + [Name(x)];
      match attempts[k]
      case Unmade => return Some(BAD_CONFIG), tried, asked;
      case Refused =>
      case Accepted => return Some(SUCCESS), tried, asked;
    }
    return None, tried, asked;
  }

  /** The candidates from `first` on, before the counter wraps. */
  predicate BeforeWrap(first: uint32, x: uint32) {
    first <= x
  }

  /** No candidate before the wrap is the name of an existing bridge, exactly when no bridge
      is called br4294967295. */
  lemma CandidatesAreNew(names: seq<string>, odd: string -> uint32, first: uint32)
    requires First(first, names, odd)
    ensures (forall x: uint32 :: BeforeWrap(first, x) ==> Name(x) !in names) <==> Name(WORD - 1) !in names
  {
    forall x: uint32 | Name(x) in names && x != WORD - 1 ensures x in Counting(names, odd) {
      NameSuffix(x, odd);
    }
    assert BeforeWrap(first, WORD - 1);
  }

  /** In particular if every suffix is below the greatest number. */
  lemma SmallSuffixes(names: seq<string>, odd: string -> uint32, first: uint32)
    requires First(first, names, odd)
    requires forall n :: n in names ==> Suffix(n, odd) < WORD - 1
    ensures forall n :: n in names ==> Suffix(n, odd) < first
    ensures names == [] ==> first == 0
    ensures names != [] ==> exists n :: n in names && first == Suffix(n, odd) + 1
    ensures forall x: uint32 :: BeforeWrap(first, x) ==> Name(x) !in names
  {
    forall n | n in names ensures Suffix(n, odd) in Counting(names, odd) {
    }
    if names != [] {
      assert names[0] in names;
    }
    NameSuffix(WORD - 1, odd);
    CandidatesAreNew(names, odd, first);
  }
}
