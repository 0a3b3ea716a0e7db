/** The crash-rate window of a virtual machine: `limit` reported crashes within a day switch
    the machine from restarting to pausing. */
module CrashWindow {
  const DAY: nat := 86400000000
  const WORD: nat := 0x1_0000_0000_0000_0000

  /** The number of crashes that is too many. */
  type Limit = n: nat | n >= 1 witness 1

  /** A crash: the monotonic time in microseconds, and what the configuration says by then,
      whether it asks for a restart with a report, and the limit. */
  datatype Crash = Crash(time: nat, counted: bool, limit: Limit)

  /** Unsigned 64-bit subtraction. */
  function Minus(a: nat, b: nat): nat {
    (a - b) % WORD
  }

  class Primary {
    var pits: seq<nat>

    constructor ()
      ensures pits == []
    {
      pits := [];
    }

    /** Returns whether the configuration is switched to pause. */
    method React(crash: Crash) returns (pause: bool)
      modifies this
      ensures (pits, pause) == Reacted(old(pits), crash)
    {
      if !crash.counted {
        return false;
      }
      pits := pits + [crash.time];
      var s := |pits|;
      if s < crash.limit {
        return false;
      }
      if s > crash.limit {
        pits := pits[1..];
      }
      var d := Minus(pits[|pits| - 1], pits[0]);
      if d < DAY {
        pits := [];
        return true;
      }
      return false;
    }
  }

  /** One reaction on the stored times. */
  function Reacted(pits: seq<nat>, crash: Crash): (seq<nat>, bool) {
    if !crash.counted then
      (pits, false)
    else
      var pushed := pits + [crash.time];
      if |pushed| < crash.limit then
        (pushed, false)
      else
        var kept := if |pushed| > crash.limit then pushed[1..] else pushed;
        if Minus(crash.time, kept[0]) < DAY then ([], true) else (kept, false)
  }

  function Stored(crashes: seq<Crash>): seq<nat>
    decreases |crashes|
  {
    if crashes == [] then [] else Reacted(Stored(crashes[..|crashes| - 1]), crashes[|crashes| - 1]).0
  }

  /** Whether the last of these crashes switches to pause. */
  predicate Pauses(crashes: seq<Crash>)
    requires crashes != []
  {
    Reacted(Stored(crashes[..|crashes| - 1]), crashes[|crashes| - 1]).1
  }

  // ---------------------------------------------------------------- the full history

  /** The times of all counted crashes since the last switch, with no window. */
  function History(crashes: seq<Crash>): seq<nat>
    decreases |crashes|
  {
    if crashes == [] then
      []
    else
      var h, c := History(crashes[..|crashes| - 1]), crashes[|crashes| - 1];
      if !c.counted then h else if TooMany(h + [c.time], c.limit) then [] else h + [c.time]
  }

  /** There are `limit` crashes, and the last `limit` of them fall within a day. */
  predicate TooMany(h: seq<nat>, limit: Limit) {
    |h| >= limit && Minus(h[|h| - 1], h[|h| - limit]) < DAY
  }

  /** Whether the full history has the last of these crashes switch to pause. */
  predicate Due(crashes: seq<Crash>)
    requires crashes != []
  {
    var c := crashes[|crashes| - 1];
    c.counted && TooMany(History(crashes[..|crashes| - 1]) + [c.time], c.limit)
  }

  function Tail(h: seq<nat>, limit: Limit): seq<nat> {
    if |h| <= limit then h else h[|h| - limit..]
  }

  // ---------------------------------------------------------------- a constant limit

  /** With a constant limit the window refines the full history, for whatever the clock does:
      it holds the last `limit` counted times, and switches exactly when the history says so. */
  lemma {:induction false} WindowRefinesHistory(crashes: seq<Crash>, limit: Limit)
    requires forall c :: c in crashes ==> c.limit == limit
    ensures Stored(crashes) == Tail(History(crashes), limit)
    ensures |Stored(crashes)| <= limit
    ensures crashes != [] ==> (Pauses(crashes) <==> Due(crashes))
    decreases |crashes|
  {
    if crashes != [] {
      var init, c := crashes[..|crashes| - 1], crashes[|crashes| - 1];
      WindowRefinesHistory(init, limit);
      assert c in crashes;
      if c.counted {
        WindowStep(History(init), c);
      }
    }
  }

  lemma WindowStep(h: seq<nat>, c: Crash)
    requires c.counted
    ensures var due := TooMany(h + [c.time], c.limit);
            Reacted(Tail(h, c.limit), c) == (if due then [] else Tail(h + [c.time], c.limit), due)
  {
    WindowSlides(h, c.time, c.limit);
  }

  lemma WindowSlides(h: seq<nat>, t: nat, limit: Limit)
    ensures var pushed := Tail(h, limit) + [t];
            (if |pushed| > limit then pushed[1..] else pushed) == Tail(h + [t], limit)
    ensures |Tail(h, limit)| + 1 < limit <==> |h| + 1 < limit
    ensures |h| + 1 >= limit ==> Tail(h + [t], limit)[0] == (h + [t])[|h| + 1 - limit]
  {
  }

  /** Times of a 64-bit clock that does not run backwards. */
  ghost predicate Clock(h: seq<nat>) {
    && (forall i, j :: 0 <= i < j < |h| ==> h[i] <= h[j])
    && forall i :: 0 <= i < |h| ==> h[i] < WORD
  }

  lemma MinusPlain(a: nat, b: nat)
    requires b <= a < WORD
    ensures Minus(a, b) == a - b
  {
  }

  /** With such a clock the difference is the plain one: the switch comes at the n-th counted
      crash iff n >= limit and t_n - t_(n-limit+1) < a day. */
  lemma PlainDifference(h: seq<nat>, limit: Limit)
    requires Clock(h)
    ensures TooMany(h, limit) <==> |h| >= limit && h[|h| - 1] - h[|h| - limit] < 86400000000
  {
    if |h| >= limit {
      MinusPlain(h[|h| - 1], h[|h| - limit]);
    }
  }

  // ---------------------------------------------------------------- a limit that changes

  /** No more times are stored than the limit, or the second of them is recent enough for a
      switch, or a switch is not called for. */
  predicate Right(pits: seq<nat>, t: nat, limit: Limit) {
    || |pits| <= limit
    || t - pits[1] < DAY
    || t - (pits + [t])[|pits| + 1 - limit] >= DAY
  }

  /** The decision on the stored times: it is what the last `limit` of them say exactly
      under this condition, and it never switches too early. */
  lemma RightExactly(pits: seq<nat>, c: Crash)
    requires c.counted && Clock(pits + [c.time])
    ensures (Reacted(pits, c).1 <==> TooMany(pits + [c.time], c.limit)) <==> Right(pits, c.time, c.limit)
    ensures Reacted(pits, c).1 ==> TooMany(pits + [c.time], c.limit)
  {
    var pushed := pits + [c.time];
    PlainDifference(pushed, c.limit);
    if |pushed| >= c.limit {
      var first := if |pushed| > c.limit then pushed[1] else pushed[0];
      assert |pushed| > c.limit ==> pushed[1..][0] == pushed[1];
      assert first <= pushed[|pits|] == c.time;
      MinusPlain(c.time, first);
    }
  }

  /** `pits` are the last of the times in `h`, and those left out are no longer needed. */
  ghost predicate Covers(pits: seq<nat>, h: seq<nat>) {
    && |pits| <= |h| && pits == h[|h| - |pits|..]
    && (|pits| < |h| ==> pits != [] && pits[|pits| - 1] - pits[0] >= DAY)
  }

  /** If the history calls for a switch, so do the stored times alone. */
  lemma SameTooMany(pits: seq<nat>, h: seq<nat>, t: nat, limit: Limit)
    requires Clock(h + [t]) && Covers(pits, h)
    ensures TooMany(h + [t], limit) <==> TooMany(pits + [t], limit)
  {
    var pushed, full := pits + [t], h + [t];
    var gap := |h| - |pits|;
    if |pushed| >= limit {
      assert pushed[|pushed| - limit] == full[|full| - limit];
    } else if |full| >= limit {
      var first := |full| - limit;
      PlainDifference(full, limit);
      assert h[gap] == pits[0] && h[|h| - 1] == pits[|pits| - 1];
      assert full[first] <= full[gap] == h[gap];
      assert h[|h| - 1] == full[|h| - 1] <= t;
    }
  }

  lemma Suffix(pits: seq<nat>, h: seq<nat>, t: nat)
    requires Clock(h + [t]) && Covers(pits, h)
    ensures Clock(pits + [t])
  {
    var gap := |h| - |pits|;
    assert forall i :: 0 <= i <= |pits| ==> (pits + [t])[i] == (h + [t])[i + gap];
  }

  lemma PausedEmpty(pits: seq<nat>, c: Crash)
    requires Reacted(pits, c).1
    ensures Reacted(pits, c).0 == []
  {
  }

  /** As long as nothing needed was left out, the stored times and the history agree on a
      crash under the same condition, and stay in step if they agree. */
  lemma AgreeOnce(pits: seq<nat>, h: seq<nat>, c: Crash)
    requires c.counted && Clock(h + [c.time]) && Covers(pits, h)
    ensures (Reacted(pits, c).1 <==> TooMany(h + [c.time], c.limit)) <==> Right(pits, c.time, c.limit)
    ensures Right(pits, c.time, c.limit) ==>
              Covers(Reacted(pits, c).0, if TooMany(h + [c.time], c.limit) then [] else h + [c.time])
  {
    var pause, due := Reacted(pits, c).1, TooMany(h + [c.time], c.limit);
    assert (pause <==> due) <==> Right(pits, c.time, c.limit) by {
      Suffix(pits, h, c.time);
      SameTooMany(pits, h, c.time, c.limit);
      RightExactly(pits, c);
    }
    if pause {
      PausedEmpty(pits, c);
      assert Covers([], []);
    } else {
      KeptCovers(pits, h, c);
    }
  }

  lemma KeptSuffix(pits: seq<nat>, h: seq<nat>, c: Crash)
    requires c.counted && Covers(pits, h) && !Reacted(pits, c).1
    ensures var full, kept := h + [c.time], Reacted(pits, c).0;
            0 < |kept| <= |full| && kept == full[|full| - |kept|..]
  {
    var full, pushed := h + [c.time], pits + [c.time];
    assert pushed == full[|full| - |pushed|..];
    assert pushed[1..] == full[|full| - |pushed| + 1..];
  }

  /** What is stored after a crash that does not switch. */
  lemma KeptCovers(pits: seq<nat>, h: seq<nat>, c: Crash)
    requires c.counted && Clock(h + [c.time]) && Covers(pits, h) && !Reacted(pits, c).1
    ensures Covers(Reacted(pits, c).0, h + [c.time])
  {
    var full, kept := h + [c.time], Reacted(pits, c).0;
    KeptSuffix(pits, h, c);
    assert kept[|kept| - 1] == full[|h|] == c.time;
    if |kept| >= c.limit {
      assert kept[0] == full[|full| - |kept|] <= c.time;
      MinusPlain(c.time, kept[0]);
    } else if |pits| < |h| {
      assert pits[|pits| - 1] == full[|h| - 1] <= c.time;
      assert kept[0] == pits[0];
    }
  }

  /** The window and the history agree on every crash so far. */
  predicate AllAgree(crashes: seq<Crash>)
    decreases |crashes|
  {
    crashes == [] || (AllAgree(crashes[..|crashes| - 1]) && (Pauses(crashes) <==> Due(crashes)))
  }

  /** The condition held at every counted crash so far. */
  predicate AllRight(crashes: seq<Crash>)
    decreases |crashes|
  {
    crashes == [] ||
    (var init, c := crashes[..|crashes| - 1], crashes[|crashes| - 1];
     AllRight(init) && (c.counted ==> Right(Stored(init), c.time, c.limit)))
  }

  ghost predicate Steady(crashes: seq<Crash>) {
    && (forall i, j :: 0 <= i < j < |crashes| ==> crashes[i].time <= crashes[j].time)
    && forall i :: 0 <= i < |crashes| ==> crashes[i].time < WORD
  }

  lemma {:induction false} HistoryClock(crashes: seq<Crash>)
    requires Steady(crashes)
    ensures Clock(History(crashes))
    ensures crashes != [] ==>
              forall i :: 0 <= i < |History(crashes)| ==> History(crashes)[i] <= crashes[|crashes| - 1].time
    decreases |crashes|
  {
    if crashes != [] {
      HistoryClock(crashes[..|crashes| - 1]);
    }
  }

  /** Whatever limits the configuration has from crash to crash: the window decides every
      crash as the full history does exactly if the condition holds at every crash. */
  lemma {:induction false} ChangedLimits(crashes: seq<Crash>)
    requires Steady(crashes)
    ensures AllAgree(crashes) <==> AllRight(crashes)
    ensures AllRight(crashes) ==> Covers(Stored(crashes), History(crashes))
    decreases |crashes|
  {
    if crashes != [] {
      var init, c := crashes[..|crashes| - 1], crashes[|crashes| - 1];
      ChangedLimits(init);
      if AllRight(init) {
        AgreeNext(crashes);
      }
    }
  }

  lemma AgreeNext(crashes: seq<Crash>)
    requires crashes != [] && Steady(crashes)
    requires var init := crashes[..|crashes| - 1]; Covers(Stored(init), History(init))
    ensures var init, c := crashes[..|crashes| - 1], crashes[|crashes| - 1];
            var right := c.counted ==> Right(Stored(init), c.time, c.limit);
            && ((Pauses(crashes) <==> Due(crashes)) <==> right)
            && (right ==> Covers(Stored(crashes), History(crashes)))
  {
    var init, c := crashes[..|crashes| - 1], crashes[|crashes| - 1];
    var pits, h := Stored(init), History(init);
    if c.counted {
      NextClock(crashes);
      AgreeOnce(pits, h, c);
    } else {
      assert Stored(crashes) == pits && History(crashes) == h;
    }
  }

  lemma NextClock(crashes: seq<Crash>)
    requires crashes != [] && Steady(crashes)
    ensures Clock(History(crashes[..|crashes| - 1]) + [crashes[|crashes| - 1].time])
  {
    var init, c := crashes[..|crashes| - 1], crashes[|crashes| - 1];
    HistoryClock(init);
    assert init != [] ==> init[|init| - 1].time <= c.time;
    ClockSnoc(History(init), c.time);
  }

  lemma ClockSnoc(h: seq<nat>, t: nat)
    requires Clock(h) && t < WORD && forall i :: 0 <= i < |h| ==> h[i] <= t
    ensures Clock(h + [t])
  {
  }

  lemma {:induction false} StoredWithin(crashes: seq<Crash>, most: nat)
    requires forall c :: c in crashes && c.counted ==> c.limit <= most
    ensures |Stored(crashes)| <= most
    decreases |crashes|
  {
    if crashes != [] {
      StoredWithin(crashes[..|crashes| - 1], most);
    }
  }

  ghost predicate NeverLowered(crashes: seq<Crash>) {
    forall i, j :: 0 <= i < j < |crashes| && crashes[i].counted && crashes[j].counted ==>
                     crashes[i].limit <= crashes[j].limit
  }

  /** In particular if the limit is never lowered. */
  lemma {:induction false} RaisedLimits(crashes: seq<Crash>)
    requires Steady(crashes) && NeverLowered(crashes)
    ensures AllAgree(crashes) && AllRight(crashes)
    decreases |crashes|
  {
    if crashes != [] {
      var init, c := crashes[..|crashes| - 1], crashes[|crashes| - 1];
      RaisedLimits(init);
      if c.counted {
        StoredWithin(init, c.limit);
      }
    }
    ChangedLimits(crashes);
  }

  /** A lowered limit misses a switch: three crashes a day apart under a limit of three, then
      the limit is two and another crash follows within a microsecond. */
  lemma ShrunkLimitMisses()
    ensures var crashes := [Crash(0, true, 3), Crash(DAY, true, 3), Crash(2 * DAY, true, 3),
                            Crash(2 * DAY + 1, true, 2)];
            Steady(crashes) && Due(crashes) && !Pauses(crashes)
  {
    var a, b, c, d := Crash(0, true, 3), Crash(DAY, true, 3), Crash(2 * DAY, true, 3), Crash(2 * DAY + 1, true, 2);
    ThreeStored(a, b, c);
    LastMissed([a, b, c], d);
    assert [a, b, c] + [d] == [a, b, c, d];
  }

  lemma ThreeStored(a: Crash, b: Crash, c: Crash)
    requires a == Crash(0, true, 3) && b == Crash(DAY, true, 3) && c == Crash(2 * DAY, true, 3)
    ensures Stored([a, b, c]) == [0, DAY, 2 * DAY] == History([a, b, c])
  {
    StoredToo([], a);
    assert [] + [a] == [a];
    StoredToo([a], b);
    assert [a] + [b] == [a, b];
    StoredToo([a, b], c);
    assert [a, b] + [c] == [a, b, c];
  }

  /** Below the limit, or at it with the first time a day ago, a crash is just stored. */
  lemma StoredToo(crashes: seq<Crash>, c: Crash)
    requires Stored(crashes) == History(crashes) && |Stored(crashes)| < c.limit && c.counted
    requires |Stored(crashes)| + 1 == c.limit ==> Minus(c.time, (Stored(crashes) + [c.time])[0]) >= DAY
    ensures Stored(crashes + [c]) == Stored(crashes) + [c.time] == History(crashes + [c])
  {
    assert (crashes + [c])[..|crashes|] == crashes;
  }

  lemma LastMissed(crashes: seq<Crash>, d: Crash)
    requires Stored(crashes) == [0, DAY, 2 * DAY] == History(crashes) && d == Crash(2 * DAY + 1, true, 2)
    ensures Due(crashes + [d]) && !Pauses(crashes + [d])
  {
    assert (crashes + [d])[..|crashes|] == crashes;
    assert ([0, DAY, 2 * DAY] + [2 * DAY + 1])[1..] == [DAY, 2 * DAY, 2 * DAY + 1];
  }
}
