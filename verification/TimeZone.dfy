/** Local time: the lookup in a zone's transition table and the round trip through it. */
module TimeZone {
  import opened UtcTime

  datatype Transition = Transition(gmt: int, local: int, idx: nat)

  datatype Localtime = Localtime(gmtOffset: int, isDst: bool)

  datatype Zone = Zone(transitions: seq<Transition>, localtimes: seq<Localtime>)

  /** A table as readTimeZoneFile builds it: each transition's local time uses the offset it switches to. */
  predicate Loaded(z: Zone) {
    && z.localtimes != []
    && forall i | 0 <= i < |z.transitions| ::
         && z.transitions[i].idx < |z.localtimes|
         && z.transitions[i].local == z.transitions[i].gmt + z.localtimes[z.transitions[i].idx].gmtOffset
  }

  // ---------- the code ----------

  /** The key Comp compares. */
  function Key(t: Transition, compareGmt: bool): int {
    if compareGmt then t.gmt else t.local
  }

  /** `std::lower_bound` over `ts[first..first + len]`. */
  function LowerBound(ts: seq<Transition>, x: int, compareGmt: bool, first: nat, len: nat): nat
    requires first + len <= |ts|
    decreases len
  {
    if len == 0 then first else
    var half := len / 2;
    if Key(ts[first + half], compareGmt) < x
    then LowerBound(ts, x, compareGmt, first + half + 1, len - half - 1)
    else LowerBound(ts, x, compareGmt, first, half)
  }

  /** `lower_bound` returns a position of the table or its end. */
  lemma {:induction false} LowerBoundInRange(ts: seq<Transition>, x: int, compareGmt: bool, first: nat, len: nat)
    requires first + len <= |ts|
    ensures first <= LowerBound(ts, x, compareGmt, first, len) <= first + len
    ensures len > 0 && LowerBound(ts, x, compareGmt, first, len) == first ==> x <= Key(ts[first], compareGmt)
    decreases len
  {
    if len > 0 {
      var half := len / 2;
      LowerBoundInRange(ts, x, compareGmt, first + half + 1, len - half - 1);
      LowerBoundInRange(ts, x, compareGmt, first, half);
    }
  }

  /** The segment of local time a moment falls into: `ts[i - 1]`'s, or the first local type before all transitions. */
  function Segment(z: Zone, i: nat): Localtime
    requires Loaded(z) && i <= |z.transitions|
  {
    if i == 0 then z.localtimes[0] else z.localtimes[z.transitions[i - 1].idx]
  }

  /** `findLocaltime`. */
  function FindLocaltime(z: Zone, x: int, compareGmt: bool): Localtime
    requires Loaded(z)
  {
    var ts := z.transitions;
    if ts == [] || x < Key(ts[0], compareGmt) then z.localtimes[0] else
    var i := LowerBound(ts, x, compareGmt, 0, |ts|);
    LowerBoundInRange(ts, x, compareGmt, 0, |ts|);
    if i < |ts| then
      var j := if Key(ts[i], compareGmt) == x then i else i - 1;
      z.localtimes[ts[j].idx]
    else z.localtimes[ts[|ts| - 1].idx]
  }

  /** TimeZone::toLocalTime. */
  function ToLocalTime(z: Zone, seconds: int): Tm
    requires Loaded(z)
  {
    var local := FindLocaltime(z, seconds, true);
    GmTime(seconds + local.gmtOffset).(isDst := local.isDst, gmtOffset := local.gmtOffset)
  }

  /** TimeZone::fromLocalTime. */
  function FromLocalTime(z: Zone, localTm: Tm): int
    requires Loaded(z)
  {
    var seconds := TimeGm(localTm);
    var local := FindLocaltime(z, seconds, false);
    var tryTm := ToLocalTime(z, seconds - local.gmtOffset);
    if localTm.isDst && !tryTm.isDst && tryTm.hour == localTm.hour && tryTm.min == localTm.min
    then seconds - 3600 - local.gmtOffset
    else seconds - local.gmtOffset
  }

  // ---------- the lookup on a sorted table ----------

  ghost predicate WeaklySorted(ts: seq<Transition>, compareGmt: bool) {
    forall i, j | 0 <= i < j < |ts| :: Key(ts[i], compareGmt) <= Key(ts[j], compareGmt)
  }

  ghost predicate SortedBy(ts: seq<Transition>, compareGmt: bool) {
    forall i, j | 0 <= i < j < |ts| :: Key(ts[i], compareGmt) < Key(ts[j], compareGmt)
  }

  /** Everything before `lo` is below x, nothing from `hi` on is. */
  ghost predicate Bounded(ts: seq<Transition>, x: int, compareGmt: bool, lo: nat, hi: nat) {
    && (forall i | 0 <= i < lo && i < |ts| :: Key(ts[i], compareGmt) < x)
    && (forall i | hi <= i < |ts| :: x <= Key(ts[i], compareGmt))
  }

  lemma Narrow(ts: seq<Transition>, x: int, compareGmt: bool, lo: nat, mid: nat, hi: nat)
    requires WeaklySorted(ts, compareGmt) && Bounded(ts, x, compareGmt, lo, hi) && lo <= mid < hi <= |ts|
    ensures if Key(ts[mid], compareGmt) < x then Bounded(ts, x, compareGmt, mid + 1, hi)
            else Bounded(ts, x, compareGmt, lo, mid)
  {
  }

  lemma {:induction false} LowerBoundSorted(ts: seq<Transition>, x: int, compareGmt: bool, first: nat, len: nat)
    requires first + len <= |ts| && WeaklySorted(ts, compareGmt) && Bounded(ts, x, compareGmt, first, first + len)
    ensures var p := LowerBound(ts, x, compareGmt, first, len);
      first <= p <= first + len && Bounded(ts, x, compareGmt, p, p)
    decreases len
  {
    hide WeaklySorted, Bounded;
    if len > 0 {
      var half := len / 2;
      var mid := first + half;
      Narrow(ts, x, compareGmt, first, mid, first + len);
      if Key(ts[mid], compareGmt) < x {
        LowerBoundSorted(ts, x, compareGmt, mid + 1, len - half - 1);
      } else {
        LowerBoundSorted(ts, x, compareGmt, first, half);
      }
    }
  }

  lemma LowerBoundIs(ts: seq<Transition>, x: int, compareGmt: bool, k: nat)
    requires SortedBy(ts, compareGmt) && k <= |ts|
    requires k > 0 ==> Key(ts[k - 1], compareGmt) <= x
    requires k < |ts| ==> x < Key(ts[k], compareGmt)
    ensures LowerBound(ts, x, compareGmt, 0, |ts|) == if k > 0 && Key(ts[k - 1], compareGmt) == x then k - 1 else k
  {
    hide LowerBound;
    LowerBoundSorted(ts, x, compareGmt, 0, |ts|);
    var q := if k > 0 && Key(ts[k - 1], compareGmt) == x then k - 1 else k;
    assert Bounded(ts, x, compareGmt, q, q);
    BoundedUnique(ts, x, compareGmt, LowerBound(ts, x, compareGmt, 0, |ts|), q);
  }

  lemma BoundedUnique(ts: seq<Transition>, x: int, compareGmt: bool, p: nat, q: nat)
    requires p <= |ts| && q <= |ts| && Bounded(ts, x, compareGmt, p, p) && Bounded(ts, x, compareGmt, q, q)
    ensures p == q
  {
    assert p < |ts| ==> x <= Key(ts[p], compareGmt);
    assert q < |ts| ==> x <= Key(ts[q], compareGmt);
  }

  /** On a sorted table the lookup finds the segment that starts at or before the moment and ends after it. */
  lemma FindsSegment(z: Zone, x: int, compareGmt: bool, k: nat)
    requires Loaded(z) && SortedBy(z.transitions, compareGmt) && k <= |z.transitions|
    requires k > 0 ==> Key(z.transitions[k - 1], compareGmt) <= x
    requires k < |z.transitions| ==> x < Key(z.transitions[k], compareGmt)
    ensures FindLocaltime(z, x, compareGmt) == Segment(z, k)
  {
    var ts := z.transitions;
    LowerBoundIs(ts, x, compareGmt, k);
    assert k > 1 ==> Key(ts[0], compareGmt) < Key(ts[k - 1], compareGmt);
    hide LowerBound, SortedBy;
  }

  /** Every moment lies in one segment. */
  function SegmentOf(ts: seq<Transition>, x: int): nat {
    if ts == [] || x >= ts[|ts| - 1].gmt then |ts| else SegmentOf(ts[..|ts| - 1], x)
  }

  lemma {:induction false} SegmentOfCorrect(ts: seq<Transition>, x: int)
    ensures var k := SegmentOf(ts, x);
      k <= |ts| && (k > 0 ==> ts[k - 1].gmt <= x) && (k < |ts| ==> x < ts[k].gmt)
    decreases |ts|
  {
    if ts != [] && x < ts[|ts| - 1].gmt {
      SegmentOfCorrect(ts[..|ts| - 1], x);
    }
  }

  // ---------- daylight saving zones ----------

  /** Transitions at least an hour apart, each an hour forward into DST or an hour back out of it. */
  ghost predicate HourZone(z: Zone) {
    && Loaded(z)
    && (forall i | 0 < i < |z.transitions| :: z.transitions[i - 1].gmt + 3600 <= z.transitions[i].gmt)
    && (forall i | 0 <= i < |z.transitions| ::
          var before, after := Segment(z, i), Segment(z, i + 1);
          && before.isDst != after.isDst
          && after.gmtOffset == before.gmtOffset + (if after.isDst then 3600 else -3600))
  }

  /** And no stretch of DST between two transitions is as short as an hour. */
  ghost predicate DstZone(z: Zone) {
    && HourZone(z)
    && (forall i | 0 < i < |z.transitions| && Segment(z, i).isDst :: z.transitions[i - 1].gmt + 3600 < z.transitions[i].gmt)
  }

  lemma {:induction false} Ascending(ts: seq<Transition>, compareGmt: bool)
    requires forall i | 0 < i < |ts| :: Key(ts[i - 1], compareGmt) < Key(ts[i], compareGmt)
    ensures SortedBy(ts, compareGmt)
    decreases |ts|
  {
    if |ts| > 1 {
      var n := |ts| - 1;
      Ascending(ts[..n], compareGmt);
      forall i | 0 <= i < n ensures Key(ts[i], compareGmt) < Key(ts[n], compareGmt) {
        assert i < n - 1 ==> Key(ts[..n][i], compareGmt) < Key(ts[..n][n - 1], compareGmt);
        assert Key(ts[n - 1], compareGmt) < Key(ts[n], compareGmt);
      }
      forall i, j | 0 <= i < j < |ts| ensures Key(ts[i], compareGmt) < Key(ts[j], compareGmt) {
        assert j < n ==> Key(ts[..n][i], compareGmt) < Key(ts[..n][j], compareGmt);
      }
    }
  }

  /** Both orders of a daylight saving zone's table agree. */
  lemma DstZoneSorted(z: Zone)
    requires DstZone(z)
    ensures SortedBy(z.transitions, true) && SortedBy(z.transitions, false)
  {
    var ts := z.transitions;
    forall i | 0 < i < |ts| ensures Key(ts[i - 1], true) < Key(ts[i], true) && Key(ts[i - 1], false) < Key(ts[i], false) {
      assert ts[i - 1].gmt + 3600 <= ts[i].gmt;
      assert ts[i - 1].local == ts[i - 1].gmt + Segment(z, i).gmtOffset;
      assert ts[i].local == ts[i].gmt + Segment(z, i + 1).gmtOffset;
    }
    Ascending(ts, true);
    Ascending(ts, false);
  }

  /** A transition's distance from the one before, its local time, and how it moves the clock. */
  lemma TransitionFacts(z: Zone, i: nat)
    requires HourZone(z) && i < |z.transitions|
    ensures z.transitions[i].local == z.transitions[i].gmt + Segment(z, i + 1).gmtOffset
    ensures Segment(z, i + 1).isDst == !Segment(z, i).isDst
    ensures Segment(z, i + 1).gmtOffset == Segment(z, i).gmtOffset + (if Segment(z, i).isDst then -3600 else 3600)
    ensures i > 0 ==> z.transitions[i - 1].gmt + 3600 <= z.transitions[i].gmt
  {
    assert z.transitions[i].local == z.transitions[i].gmt + Segment(z, i + 1).gmtOffset;
  }

  lemma SegmentKept(z: Zone, t: int, k: nat)
    requires DstZone(z) && k <= |z.transitions|
    requires k > 0 ==> z.transitions[k - 1].gmt <= t
    requires k < |z.transitions| ==> t < z.transitions[k].gmt && (Segment(z, k).isDst ==> t + 3600 < z.transitions[k].gmt)
    ensures FindLocaltime(z, t + Segment(z, k).gmtOffset, false) == Segment(z, k)
  {
    assert HourZone(z) && Loaded(z);
    hide SortedBy, FindLocaltime, Segment, HourZone, DstZone, Loaded;
    DstZoneSorted(z);
    if k > 0 {
      TransitionFacts(z, k - 1);
    }
    if k < |z.transitions| {
      TransitionFacts(z, k);
    }
    FindsSegment(z, t + Segment(z, k).gmtOffset, false, k);
  }

  lemma SegmentNext(z: Zone, t: int, k: nat)
    requires DstZone(z) && k < |z.transitions| && Segment(z, k).isDst
    requires t < z.transitions[k].gmt <= t + 3600
    ensures FindLocaltime(z, t + Segment(z, k).gmtOffset, false) == Segment(z, k + 1)
  {
    assert HourZone(z) && Loaded(z);
    hide SortedBy, FindLocaltime, Segment, HourZone, DstZone, Loaded;
    DstZoneSorted(z);
    TransitionFacts(z, k);
    if k + 1 < |z.transitions| {
      TransitionFacts(z, k + 1);
    }
    FindsSegment(z, t + Segment(z, k).gmtOffset, false, k + 1);
  }

  /** The local clock reading falls in the same segment, or in the next one during the repeated hour. */
  lemma LocalSegment(z: Zone, t: int, k: nat)
    requires DstZone(z) && k <= |z.transitions|
    requires k > 0 ==> z.transitions[k - 1].gmt <= t
    requires k < |z.transitions| ==> t < z.transitions[k].gmt
    ensures var repeated := k < |z.transitions| && Segment(z, k).isDst && z.transitions[k].gmt <= t + 3600;
      FindLocaltime(z, t + Segment(z, k).gmtOffset, false) == Segment(z, if repeated then k + 1 else k)
  {
    assert Loaded(z);
    hide HourZone, FindLocaltime, Segment;
    if k < |z.transitions| && Segment(z, k).isDst && z.transitions[k].gmt <= t + 3600 {
      SegmentNext(z, t, k);
    } else {
      SegmentKept(z, t, k);
    }
  }

  /**
    Every moment survives toLocalTime and fromLocalTime, the repeated hour at the end of DST included, in every zone
    whose transitions are at least an hour apart and move the clock by an hour into or out of DST, each stretch of DST
    being longer than an hour.
   */
  lemma LocalRoundTrip(z: Zone, t: int)
    requires DstZone(z)
    ensures FromLocalTime(z, ToLocalTime(z, t)) == t
  {
    hide GmTime, TimeGm, FindLocaltime, SortedBy;
    var ts := z.transitions;
    var k := SegmentOf(ts, t);
    SegmentOfCorrect(ts, t);
    DstZoneSorted(z);
    FindsSegment(z, t, true, k);
    LocalSegment(z, t, k);
    var here := Segment(z, k);
    LocalClock(z, t, here);
    if k < |ts| && here.isDst && ts[k].gmt <= t + 3600 {
      RepeatedHour(z, t, k);
    }
  }

  /** The clock reading as seconds. */
  lemma LocalClock(z: Zone, t: int, here: Localtime)
    requires Loaded(z) && FindLocaltime(z, t, true) == here
    ensures TimeGm(ToLocalTime(z, t)) == t + here.gmtOffset && ToLocalTime(z, t).isDst == here.isDst
  {
    hide GmTime, TimeGm, FindLocaltime;
    GmRoundTrip(t + here.gmtOffset);
    TimeGmIgnoresZone(GmTime(t + here.gmtOffset), here.isDst, here.gmtOffset);
  }

  /** On a sorted table toLocalTime shows the clock, the flag and the offset of the segment the moment lies in. */
  lemma LocalFields(z: Zone, t: int, k: nat)
    requires Loaded(z) && SortedBy(z.transitions, true) && k <= |z.transitions|
    requires k > 0 ==> z.transitions[k - 1].gmt <= t
    requires k < |z.transitions| ==> t < z.transitions[k].gmt
    ensures var tm := ToLocalTime(z, t);
      && TimeGm(tm) == t + Segment(z, k).gmtOffset
      && tm.isDst == Segment(z, k).isDst && tm.gmtOffset == Segment(z, k).gmtOffset
  {
    hide GmTime, TimeGm, FindLocaltime, SortedBy;
    FindsSegment(z, t, true, k);
    LocalClock(z, t, Segment(z, k));
  }

  /** The last hour of DST reads as the first hour after it. */
  lemma RepeatedHour(z: Zone, t: int, k: nat)
    requires DstZone(z) && SortedBy(z.transitions, true) && k < |z.transitions| && Segment(z, k).isDst
    requires t < z.transitions[k].gmt <= t + 3600
    requires FindLocaltime(z, t, true) == Segment(z, k)
    ensures Segment(z, k + 1) == Localtime(Segment(z, k).gmtOffset - 3600, false)
    ensures !ToLocalTime(z, t + 3600).isDst
    ensures ToLocalTime(z, t + 3600).hour == ToLocalTime(z, t).hour && ToLocalTime(z, t + 3600).min == ToLocalTime(z, t).min
  {
    hide GmTime, FindLocaltime;
    var ts := z.transitions;
    assert k + 1 < |ts| ==> ts[k + 1 - 1].gmt + 3600 <= ts[k + 1].gmt;
    FindsSegment(z, t + 3600, true, k + 1);
  }

  lemma TimeGmIgnoresZone(tm: Tm, isDst: bool, gmtOffset: int)
    ensures TimeGm(tm.(isDst := isDst, gmtOffset := gmtOffset)) == TimeGm(tm)
  {
    assert DateOf(tm.(isDst := isDst, gmtOffset := gmtOffset)) == DateOf(tm);
  }

  /** Zones with a fixed offset round-trip every moment. */
  lemma FixedOffsetRoundTrip(eastOfUtc: int, t: int)
    ensures var z := Zone([], [Localtime(eastOfUtc, false)]);
      FromLocalTime(z, ToLocalTime(z, t)) == t
  {
    LocalRoundTrip(Zone([], [Localtime(eastOfUtc, false)]), t);
  }

  /** In an hour zone both orders are kept, though local times can be equal. */
  lemma HourZoneSorted(z: Zone)
    requires HourZone(z)
    ensures SortedBy(z.transitions, true) && WeaklySorted(z.transitions, false)
  {
    var ts := z.transitions;
    forall i | 0 < i < |ts| ensures ts[i - 1].gmt < ts[i].gmt && ts[i - 1].local <= ts[i].local {
      assert ts[i - 1].gmt + 3600 <= ts[i].gmt;
      assert ts[i - 1].local == ts[i - 1].gmt + Segment(z, i).gmtOffset;
      assert ts[i].local == ts[i].gmt + Segment(z, i + 1).gmtOffset;
    }
    Ascending(ts, true);
    WeaklyAscending(ts);
  }

  lemma {:induction false} WeaklyAscending(ts: seq<Transition>)
    requires forall i | 0 < i < |ts| :: ts[i - 1].local <= ts[i].local
    ensures WeaklySorted(ts, false)
    decreases |ts|
  {
    if |ts| > 1 {
      var n := |ts| - 1;
      WeaklyAscending(ts[..n]);
      forall i, j | 0 <= i < j < |ts| ensures ts[i].local <= ts[j].local {
        assert j < n ==> Key(ts[..n][i], false) <= Key(ts[..n][j], false);
        assert i < n - 1 ==> Key(ts[..n][i], false) <= Key(ts[..n][n - 1], false);
      }
    }
  }

  /** With DST lasting exactly one hour the two transitions have one local time, and the lookup finds the first. */
  lemma FindsFirstOfTwo(z: Zone, k: nat)
    requires HourZone(z) && 0 < k < |z.transitions| && Segment(z, k).isDst
    requires z.transitions[k].gmt == z.transitions[k - 1].gmt + 3600
    ensures FindLocaltime(z, z.transitions[k].local, false) == Segment(z, k)
  {
    var ts := z.transitions;
    var x := ts[k].local;
    HourZoneSorted(z);
    assert ts[k - 1].local == ts[k - 1].gmt + Segment(z, k).gmtOffset;
    assert x == ts[k].gmt + Segment(z, k + 1).gmtOffset;
    assert ts[k - 1].local == x;
    if k > 1 {
      assert ts[k - 2].gmt + 3600 <= ts[k - 1].gmt;
      assert ts[k - 2].local == ts[k - 2].gmt + Segment(z, k - 1).gmtOffset;
      assert ts[k - 2].local < x;
    }
    LowerBoundSorted(ts, x, false, 0, |ts|);
    var p := LowerBound(ts, x, false, 0, |ts|);
    hide LowerBound;
    assert p <= k - 1;
    assert p == k - 1;
    assert Key(ts[0], false) <= x;
  }

  /** So in every such zone the end of that hour comes back an hour early. */
  lemma OneHourOfDstFails(z: Zone, k: nat)
    requires HourZone(z) && 0 < k < |z.transitions| && Segment(z, k).isDst
    requires z.transitions[k].gmt == z.transitions[k - 1].gmt + 3600
    ensures var t := z.transitions[k].gmt; FromLocalTime(z, ToLocalTime(z, t)) == t - 3600
  {
    hide GmTime, TimeGm, FindLocaltime, SortedBy, WeaklySorted;
    var t := z.transitions[k].gmt;
    HourZoneSorted(z);
    assert k + 1 < |z.transitions| ==> z.transitions[k].gmt + 3600 <= z.transitions[k + 1].gmt;
    FindsSegment(z, t, true, k + 1);
    var after := Segment(z, k + 1);
    LocalClock(z, t, after);
    assert z.transitions[k].local == t + after.gmtOffset;
    FindsFirstOfTwo(z, k);
  }

  /**
    The exact condition: a zone whose transitions are at least an hour apart and move the clock by an hour round-trips
    every moment if and only if no stretch of DST lasts exactly one hour.
   */
  lemma LocalRoundTripIff(z: Zone)
    requires HourZone(z)
    ensures (forall t :: FromLocalTime(z, ToLocalTime(z, t)) == t) <==> DstZone(z)
  {
    if DstZone(z) {
      forall t ensures FromLocalTime(z, ToLocalTime(z, t)) == t {
        LocalRoundTrip(z, t);
      }
    } else {
      var k :| 0 < k < |z.transitions| && Segment(z, k).isDst && z.transitions[k - 1].gmt + 3600 >= z.transitions[k].gmt;
      assert z.transitions[k - 1].gmt + 3600 <= z.transitions[k].gmt;
      OneHourOfDstFails(z, k);
    }
  }
}
