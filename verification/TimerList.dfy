/**
  The ordered set of pending timers: `std::set<std::pair<Timestamp, Timer*>>`, kept as the sequence
  of its elements in iteration order.
 */
module TimerList {

  datatype Entry = Entry(when: int, addr: nat)

  predicate Less(a: Entry, b: Entry) {
    a.when < b.when || (a.when == b.when && a.addr < b.addr)
  }

  ghost predicate Sorted(s: seq<Entry>) {
    forall i, j :: 0 <= i < j < |s| ==> Less(s[i], s[j])
  }

  /** `std::set::insert`: an element already present is left alone. */
  function Insert(s: seq<Entry>, e: Entry): seq<Entry> {
    if s == [] || Less(e, s[0]) then [e] + s
    else if s[0] == e then s
    else [s[0]] + Insert(s[1..], e)
  }

  /** `std::set::erase` by key. */
  function Erase(s: seq<Entry>, e: Entry): seq<Entry> {
    if s == [] then []
    else if s[0] == e then s[1..]
    else [s[0]] + Erase(s[1..], e)
  }

  /** `std::set::lower_bound`: the position of the first element not before `sentry`. */
  function LowerBound(s: seq<Entry>, sentry: Entry): nat {
    if s == [] || !Less(s[0], sentry) then 0 else 1 + LowerBound(s[1..], sentry)
  }

  /** Insertion keeps the order and adds exactly the new element. */
  lemma {:induction false} InsertCorrect(s: seq<Entry>, e: Entry)
    requires Sorted(s)
    ensures Sorted(Insert(s, e))
    ensures forall x :: x in Insert(s, e) <==> x == e || x in s
  {
    if s == [] || Less(e, s[0]) || s[0] == e {
    } else {
      InsertCorrect(s[1..], e);
      var t := Insert(s[1..], e);
      assert forall x :: x in s <==> x == s[0] || x in s[1..];
      forall j | 0 <= j < |t| ensures Less(s[0], t[j]) {
        assert t[j] in t;
      }
    }
  }

  /** Erasing keeps the order and removes exactly the given element. */
  lemma {:induction false} EraseCorrect(s: seq<Entry>, e: Entry)
    requires Sorted(s)
    ensures Sorted(Erase(s, e))
    ensures forall x :: x in Erase(s, e) <==> x != e && x in s
    ensures e in s ==> |Erase(s, e)| == |s| - 1
  {
    if s != [] {
      assert forall x :: x in s <==> x == s[0] || x in s[1..];
      if s[0] != e {
        EraseCorrect(s[1..], e);
        var t := Erase(s[1..], e);
        forall j | 0 <= j < |t| ensures Less(s[0], t[j]) {
          assert t[j] in t;
        }
      }
    }
  }

  /** The lower bound splits the set into what lies before the sentry and what does not. */
  lemma {:induction false} LowerBoundSplits(s: seq<Entry>, sentry: Entry)
    requires Sorted(s)
    ensures LowerBound(s, sentry) <= |s|
    ensures forall i :: 0 <= i < LowerBound(s, sentry) ==> Less(s[i], sentry)
    ensures forall i :: LowerBound(s, sentry) <= i < |s| ==> !Less(s[i], sentry)
  {
    if s == [] || !Less(s[0], sentry) {
    } else {
      LowerBoundSplits(s[1..], sentry);
      assert forall i :: 0 < i < |s| ==> s[i] == s[1..][i - 1];
    }
  }
}
