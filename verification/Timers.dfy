/** iperf's timers: a list sorted by due time, a list of free timers, and the sweep that fires. */
module Timers {
  import opened Bytes
  import opened IperfTime
  import opened Sequences

  /** The callbacks of a test; only the one that ends the omit period touches the timer list. */
  datatype TimerProc = EndTest | Stats | Report | EndOmit

  /** The fields of iperf_test that the callbacks use. */
  class Test {
    var done: bool
    var omitting: bool
    var timer: Timer?
    var omitTimer: Timer?
    var statsTimer: Timer?
    var reporterTimer: Timer?
  }

  class Timer {
    var proc: TimerProc
    var clientData: Test
    var usecs: int64
    var periodic: bool
    var time: Time
    var prev: Timer?
    var next: Timer?

    constructor (clientData: Test)
      ensures this.clientData == clientData
    {
      this.clientData := clientData;
      proc, usecs, periodic, time, prev, next := EndTest, 0, false, Time(0, 0), null, null;
    }

    /** A timer as tmr_create leaves it. */
    ghost predicate Is(proc: TimerProc, test: Test, usecs: int64, periodic: bool, now: Time)
      reads this`proc, this`clientData, this`usecs, this`periodic, this`time
    {
      && this.proc == proc && clientData == test && this.usecs == usecs && this.periodic == periodic
      && time == AddUsecs(now, usecs)
    }
  }

  ghost function Just(t: Timer?): set<Timer> {
    if t == null then {} else {t}
  }

  // ---------- lists of timers ----------

  /** ns are, in order, the timers of the doubly linked list that starts at head. */
  ghost predicate Links(head: Timer?, ns: seq<Timer>)
    reads ns`next, ns`prev
  {
    && (if ns == [] then head == null else head == ns[0] && ns[0].prev == null && ns[|ns| - 1].next == null)
    && (forall i {:trigger ns[i].next} :: 0 <= i < |ns| - 1 ==> ns[i].next == ns[i + 1])
    && (forall i {:trigger ns[i].prev} :: 0 < i < |ns| ==> ns[i].prev == ns[i - 1])
    && Distinct(ns)
  }

  ghost predicate Sorted(ns: seq<Timer>)
    reads ns`time
  {
    forall i, j :: 0 <= i < j < |ns| ==> Compare(ns[i].time, ns[j].time) <= 0
  }

  ghost predicate AllNormal(ns: seq<Timer>)
    reads ns`time
  {
    forall t :: t in ns ==> Normal(t.time)
  }

  /** Where a timer due at time goes: behind every timer due no later. */
  ghost function Position(ns: seq<Timer>, time: Time): (p: nat)
    reads ns`time
    ensures p <= |ns|
    ensures forall i :: 0 <= i < p ==> Compare(time, ns[i].time) >= 0
    ensures p < |ns| ==> Compare(time, ns[p].time) < 0
  {
    if ns == [] || Compare(time, ns[0].time) < 0 then 0 else 1 + Position(ns[1..], time)
  }

  ghost function IndexOf(ns: seq<Timer>, t: Timer): (k: nat)
    requires t in ns
    ensures k < |ns| && ns[k] == t
  {
    if ns[0] == t then 0 else 1 + IndexOf(ns[1..], t)
  }

  /** The list with t in its place. */
  ghost function Inserted(ns: seq<Timer>, t: Timer): seq<Timer>
    reads ns`time, t`time
  {
    With(ns, Position(ns, t.time), t)
  }

  ghost function Removed(ns: seq<Timer>, t: Timer): seq<Timer>
    requires t in ns
  {
    Without(ns, IndexOf(ns, t))
  }

  lemma InsertedIs(ns: seq<Timer>, t: Timer)
    ensures Inserted(ns, t) == With(ns, Position(ns, t.time), t)
  {
  }

  lemma InsertedMembers(ns: seq<Timer>, t: Timer, m: seq<Timer>)
    requires m == Inserted(ns, t)
    ensures forall x :: x in m <==> x == t || x in ns
  {
    var p := Position(ns, t.time);
    assert ns == ns[..p] + ns[p..];
  }

  lemma RemovedMembers(ns: seq<Timer>, t: Timer, m: seq<Timer>)
    requires Distinct(ns) && t in ns && m == Removed(ns, t)
    ensures forall x :: x in m <==> x in ns && x != t
  {
    var k := IndexOf(ns, t);
    assert ns == ns[..k] + [t] + ns[k + 1..];
  }

  lemma InsertedSorted(ns: seq<Timer>, t: Timer)
    requires Sorted(ns)
    ensures Sorted(Inserted(ns, t))
  {
    var p := Position(ns, t.time);
    var m := With(ns, p, t);
    forall i, j | 0 <= i < j < |m| ensures Compare(m[i].time, m[j].time) <= 0 {
      if i == p && j > p + 1 {
        assert Compare(ns[p].time, ns[j - 1].time) <= 0;
      }
    }
  }

  lemma RemovedSorted(ns: seq<Timer>, t: Timer)
    requires Sorted(ns) && t in ns
    ensures Sorted(Removed(ns, t))
  {
  }

  /** The list without the timers in moved. */
  ghost function Others(ns: seq<Timer>, moved: set<Timer>): seq<Timer> {
    if ns == [] then [] else (if ns[0] in moved then [] else [ns[0]]) + Others(ns[1..], moved)
  }

  lemma {:induction false} OthersConcat(a: seq<Timer>, b: seq<Timer>, moved: set<Timer>)
    ensures Others(a + b, moved) == Others(a, moved) + Others(b, moved)
  {
    if a == [] {
      assert a + b == b;
    } else {
      OthersConcat(a[1..], b, moved);
      OthersBehind(a, b, moved);
    }
  }

  lemma OthersBehind(a: seq<Timer>, b: seq<Timer>, moved: set<Timer>)
    requires a != [] && Others(a[1..] + b, moved) == Others(a[1..], moved) + Others(b, moved)
    ensures Others(a + b, moved) == Others(a, moved) + Others(b, moved)
  {
    hide Others;
    OthersFirst(a, moved);
    OthersFirst(a + b, moved);
    assert (a + b)[1..] == a[1..] + b;
  }

  lemma OthersFirst(ns: seq<Timer>, moved: set<Timer>)
    requires ns != []
    ensures Others(ns, moved) == (if ns[0] in moved then [] else [ns[0]]) + Others(ns[1..], moved)
  {
  }

  lemma {:induction false} InOthers(ns: seq<Timer>, moved: set<Timer>, x: Timer)
    ensures x in Others(ns, moved) <==> x in ns && x !in moved
  {
    if ns != [] {
      InOthers(ns[1..], moved, x);
      assert ns == [ns[0]] + ns[1..];
    }
  }

  lemma OthersSplit(ns: seq<Timer>, k: nat, moved: set<Timer>)
    requires k < |ns|
    ensures Others(ns, moved) ==
            Others(ns[..k], moved) + (if ns[k] in moved then [] else [ns[k]]) + Others(ns[k + 1..], moved)
  {
    assert ns == ns[..k] + ([ns[k]] + ns[k + 1..]);
    OthersConcat(ns[..k], [ns[k]] + ns[k + 1..], moved);
    OthersConcat([ns[k]], ns[k + 1..], moved);
    assert Others([ns[k]], moved) == if ns[k] in moved then [] else [ns[k]];
  }

  /** Taking a timer off and putting it back somewhere does not touch the order of the others. */
  lemma {:induction false} OthersWithout(ns: seq<Timer>, t: Timer, m: seq<Timer>, moved: set<Timer>)
    requires t in ns && t in moved && m == Removed(ns, t)
    ensures Others(m, moved) == Others(ns, moved)
  {
    var k := IndexOf(ns, t);
    OthersSplit(ns, k, moved);
    OthersConcat(ns[..k], ns[k + 1..], moved);
  }

  lemma {:induction false} OthersWith(ns: seq<Timer>, t: Timer, m: seq<Timer>, moved: set<Timer>)
    requires t in moved && m == Inserted(ns, t)
    ensures Others(m, moved) == Others(ns, moved)
  {
    var k := Position(ns, t.time);
    assert m[..k] == ns[..k] && m[k] == t && m[k + 1..] == ns[k..] && ns == ns[..k] + ns[k..];
    OthersSplit(m, k, moved);
    OthersConcat(ns[..k], ns[k..], moved);
  }

  lemma {:induction false} FirstPlace(a: seq<Timer>, b: seq<Timer>, x: Timer)
    requires x !in a
    ensures IndexOf(a + [x] + b, x) == |a|
  {
    var s := a + [x] + b;
    assert s[|a|] == x;
    if a != [] {
      FirstPlace(a[1..], b, x);
      assert s[0] == a[0] && s[1..] == a[1..] + [x] + b;
    }
  }

  /** Where x first stands, it splits a sequence in one way. */
  lemma OneSplit(a: seq<Timer>, b: seq<Timer>, c: seq<Timer>, d: seq<Timer>, x: Timer)
    requires a + [x] + b == c + [x] + d && x !in a && x !in c
    ensures a == c
  {
    FirstPlace(a, b, x);
    FirstPlace(c, d, x);
    assert a == (a + [x] + b)[..|a|] && c == (c + [x] + d)[..|c|];
  }

  /** The list has become m, where only timers in moved have a new place or are gone: what now stands
      in front of the timer that followed position j stood in front of j, or has moved. */
  lemma SameFront(ns: seq<Timer>, j: nat, m: seq<Timer>, moved: set<Timer>) returns (j': nat)
    requires Distinct(ns) && Distinct(m) && j < |ns| && ns[j] in moved && Others(m, moved) == Others(ns, moved)
    requires j + 1 < |ns| ==> ns[j + 1] !in moved
    ensures if j + 1 < |ns| then j' < |m| && m[j'] == ns[j + 1] else j' == |m|
    ensures forall k :: 0 <= k < j' ==> m[k] in moved || m[k] in ns[..j]
  {
    var front := ns[..j + 1];
    assert front[..j] == ns[..j] && front[j + 1..] == [];
    OthersSplit(front, j, moved);
    if j + 1 < |ns| {
      var next := ns[j + 1];
      InOthers(ns, moved, next);
      InOthers(m, moved, next);
      j' := IndexOf(m, next);
      OthersSplit(ns, j + 1, moved);
      OthersSplit(m, j', moved);
      InOthers(front, moved, next);
      InOthers(m[..j'], moved, next);
      OneSplit(Others(m[..j'], moved), Others(m[j' + 1..], moved),
               Others(front, moved), Others(ns[j + 2..], moved), next);
    } else {
      j' := |m|;
      assert m[..j'] == m && front == ns;
    }
    forall k | 0 <= k < j' ensures m[k] in moved || m[k] in ns[..j] {
      InOthers(m[..j'], moved, m[..j'][k]);
      InOthers(ns[..j], moved, m[k]);
    }
  }

  /** The links once t is in front of the timer at p; all others are as in the list ns. */
  lemma SplicedIn(head: Timer?, ns: seq<Timer>, p: nat, t: Timer)
    requires p <= |ns| && Distinct(ns) && t !in ns
    requires p == 0 ==> head == t && t.prev == null
    requires p > 0 ==> head == ns[0] && ns[0].prev == null && t.prev == ns[p - 1] && ns[p - 1].next == t
    requires if p == |ns| then t.next == null else t.next == ns[p] && ns[p].prev == t && ns[|ns| - 1].next == null
    requires forall i {:trigger ns[i].next} :: 0 <= i < |ns| - 1 && i != p - 1 ==> ns[i].next == ns[i + 1]
    requires forall i {:trigger ns[i].prev} :: 0 < i < |ns| && i != p ==> ns[i].prev == ns[i - 1]
    ensures Links(head, With(ns, p, t))
  {
    var m := With(ns, p, t);
    forall i | 0 <= i < |m| - 1 ensures m[i].next == m[i + 1] {
      if i > p {
        assert ns[i - 1].next == ns[i];
      } else if i < p - 1 {
        assert ns[i].next == ns[i + 1];
      }
    }
    forall i | 0 < i < |m| ensures m[i].prev == m[i - 1] {
      if i > p + 1 {
        assert ns[i - 1].prev == ns[i - 2];
      } else if i < p {
        assert ns[i].prev == ns[i - 1];
      }
    }
  }

  lemma Neighbours(head: Timer?, ns: seq<Timer>, k: nat)
    requires Links(head, ns) && k < |ns|
    ensures ns[k].next == if k + 1 < |ns| then ns[k + 1] else null
    ensures ns[k].prev == if k == 0 then null else ns[k - 1]
    ensures forall i :: 0 <= i < |ns| && i != k ==> ns[i] != ns[k]
  {
  }

  lemma LinksDistinct(head: Timer?, ns: seq<Timer>)
    requires Links(head, ns)
    ensures Distinct(ns)
  {
  }

  /** The links once the timer at k is bypassed. */
  lemma SplicedOut(head: Timer?, ns: seq<Timer>, k: nat)
    requires k < |ns| && Distinct(ns)
    requires head == if k > 0 then ns[0] else if |ns| > 1 then ns[1] else null
    requires |ns| > 1 ==> head.prev == null
    requires if k + 1 < |ns| then ns[|ns| - 1].next == null else k > 0 ==> ns[k - 1].next == null
    requires 0 < k < |ns| - 1 ==> ns[k - 1].next == ns[k + 1] && ns[k + 1].prev == ns[k - 1]
    requires forall i {:trigger ns[i].next} :: 0 <= i < |ns| - 1 && i != k - 1 && i != k ==> ns[i].next == ns[i + 1]
    requires forall i {:trigger ns[i].prev} :: 0 < i < |ns| && i != k && i != k + 1 ==> ns[i].prev == ns[i - 1]
    ensures Links(head, Without(ns, k))
  {
    var m := Without(ns, k);
    forall i | 0 <= i < |m| - 1 ensures m[i].next == m[i + 1] {
      if i >= k {
        assert ns[i + 1].next == ns[i + 2];
      } else if i < k - 1 {
        assert ns[i].next == ns[i + 1];
      }
    }
    forall i | 0 < i < |m| ensures m[i].prev == m[i - 1] {
      if i > k {
        assert ns[i + 1].prev == ns[i];
      } else if i < k {
        assert ns[i].prev == ns[i - 1];
      }
    }
  }

  /** ns are, in order, the timers on the free list, linked by next alone. */
  ghost predicate FreeLinks(head: Timer?, ns: seq<Timer>)
    reads ns`next
  {
    && (if ns == [] then head == null else head == ns[0] && ns[|ns| - 1].next == null)
    && (forall i {:trigger ns[i].next} :: 0 <= i < |ns| - 1 ==> ns[i].next == ns[i + 1])
    && Distinct(ns)
  }

  lemma FreePop(head: Timer, ns: seq<Timer>)
    requires FreeLinks(head, ns)
    ensures ns != [] && head == ns[0] && head !in ns[1..] && FreeLinks(head.next, ns[1..])
  {
  }

  lemma FreePush(head: Timer?, ns: seq<Timer>, t: Timer)
    requires FreeLinks(head, ns) && t !in ns && t.next == head
    ensures FreeLinks(t, [t] + ns)
  {
    var m := [t] + ns;
    assert forall i :: 0 <= i < |ns| ==> m[i + 1] == ns[i];
    forall i | 0 <= i < |m| - 1 ensures m[i].next == m[i + 1] {
      if i > 0 {
        assert ns[i - 1].next == ns[i];
      }
    }
  }

  lemma NoFree(head: Timer?, ns: seq<Timer>)
    requires FreeLinks(head, ns) && head == null
    ensures ns == []
  {
  }

  // ---------- the two lists ----------

  class TimerList {
    var timers: Timer?
    var freeTimers: Timer?
    ghost var active: seq<Timer>
    ghost var free: seq<Timer>

    ghost predicate Valid()
      reads this, active, free
    {
      && Links(timers, active) && Sorted(active) && AllNormal(active)
      && FreeLinks(freeTimers, free)
      && (forall t :: t in active ==> t !in free)
    }

    constructor ()
      ensures Valid() && active == [] && free == []
    {
      timers, freeTimers, active, free := null, null, [], [];
    }

    /** list_add: behind all timers due no later. */
    method ListAdd(t: Timer)
      requires Links(timers, active) && t !in active
      modifies this`timers, this`active, t`next, t`prev, Members(active)`next, Members(active)`prev
      ensures active == Inserted(old(active), t) && Links(timers, active)
    {
      hide Position, With, Distinct;
      if timers == null {
        LinkIn(null, t, null);
      } else if Compare(t.time, timers.time) < 0 {
        LinkIn(null, t, timers);
      } else {
        var t2prev, t2 := timers, timers.next;
        ghost var i := 1;
        while t2 != null
          invariant 0 < i <= |active| && t2prev == active[i - 1] && t2 == if i < |active| then active[i] else null
          invariant i <= Position(active, t.time)
          decreases |active| - i
        {
          if Compare(t.time, t2.time) < 0 {
            LinkIn(t2prev, t, t2);
            return;
          }
          t2prev, t2 := t2, t2.next;
          i := i + 1;
        }
        LinkIn(t2prev, t, null);
      }
    }

    /** Puts t between its neighbours; with no left one it becomes the head. */
    method LinkIn(t2prev: Timer?, t: Timer, t2: Timer?)
      requires Links(timers, active) && t !in active
      requires var p := Position(active, t.time);
        && (if p == 0 then t2prev == null else t2prev == active[p - 1])
        && (if p == |active| then t2 == null else t2 == active[p])
      modifies this`timers, this`active, t`next, t`prev, Members(active)`next, Members(active)`prev
      ensures active == Inserted(old(active), t) && Links(timers, active)
    {
      hide Position, With, Inserted;
      ghost var ns, p := active, Position(active, t.time);
      ghost var m := Inserted(ns, t);
      InsertedIs(ns, t);
      assert allocated(ns);
      if t2prev == null {
        timers := t;
      } else {
        t2prev.next := t;
      }
      t.prev := t2prev;
      t.next := t2;
      if t2 != null {
        t2.prev := t;
      }
      SplicedIn(timers, ns, p, t);
      active := m;
    }

    /** list_remove; the timer's own links stay as they are. */
    method ListRemove(t: Timer)
      requires Links(timers, active) && t in active
      modifies this`timers, this`active, Members(active)`next, Members(active)`prev
      ensures active == Removed(old(active), t) && Links(timers, active)
      ensures t.next == old(t.next)
    {
      hide IndexOf, Without;
      ghost var ns, k := active, IndexOf(active, t);
      Neighbours(timers, ns, k);
      active := Removed(ns, t);
      if t.prev == null {
        timers := t.next;
      } else {
        t.prev.next := t.next;
      }
      if t.next != null {
        t.next.prev := t.prev;
      }
      SplicedOut(timers, ns, k);
    }

    /** list_resort. */
    method ListResort(t: Timer)
      requires Links(timers, active) && t in active
      modifies this`timers, this`active, Members(active)`next, Members(active)`prev
      ensures active == Inserted(Removed(old(active), t), t) && Links(timers, active)
    {
      ListRemove(t);
      ListAdd(t);
    }

    /** tmr_create: a timer due usecs from now, taken from the free list when that has one. */
    method Create(now: Time, proc: TimerProc, clientData: Test, usecs: int64, periodic: bool) returns (t: Timer)
      requires Valid()
      modifies this, Members(active)`next, Members(active)`prev, Members(free)
      ensures Valid() && active == Inserted(old(active), t)
      ensures if old(free) == [] then fresh(t) && free == [] else t == old(free)[0] && free == old(free)[1..]
      ensures Members(active) + Members(free) == old(Members(active) + Members(free)) + {t}
      ensures t.proc == proc && t.clientData == clientData && t.usecs == usecs && t.periodic == periodic
      ensures t.time == AddUsecs(now, usecs)
    {
      hide Links, Sorted, Inserted, FreeLinks;
      if freeTimers != null {
        FreePop(freeTimers, free);
        t := freeTimers;
        freeTimers := t.next;
        free := free[1..];
      } else {
        NoFree(freeTimers, free);
        t := new Timer(clientData);
      }
      t.proc := proc;
      t.clientData := clientData;
      t.usecs := usecs;
      t.periodic := periodic;
      t.time := AddUsecs(now, usecs);
      Enlist(t);
    }

    /** list_add keeps both lists in order, for a timer that is on neither. */
    method Enlist(t: Timer)
      requires Valid() && t !in active && t !in free && Normal(t.time)
      modifies this`timers, this`active, t`next, t`prev, Members(active)`next, Members(active)`prev
      ensures Valid() && active == Inserted(old(active), t)
      ensures Members(active) == old(Members(active)) + {t}
    {
      hide Links, Sorted, FreeLinks, Inserted;
      ghost var m := Inserted(active, t);
      InsertedSorted(active, t);
      InsertedMembers(active, t, m);
      assert allocated(m) && allocated(free);
      ListAdd(t);
      assert active == m;
    }

    /** list_remove keeps both lists in order. */
    method Delist(t: Timer)
      requires t in active && Links(timers, active)
      requires Sorted(Removed(active, t)) && AllNormal(Removed(active, t))
      requires FreeLinks(freeTimers, free) && forall x :: x in active ==> x !in free
      modifies this`timers, this`active, Members(active)`next, Members(active)`prev
      ensures Valid() && active == Removed(old(active), t) && t !in active && t !in free
      ensures Members(active) == old(Members(active)) - {t}
    {
      hide Links, Sorted, FreeLinks, Removed;
      ghost var m := Removed(active, t);
      LinksDistinct(timers, active);
      RemovedMembers(active, t, m);
      assert allocated(m) && allocated(free);
      ListRemove(t);
      assert active == m;
    }

    lemma TimesWithout(t: Timer)
      requires Valid() && t in active
      ensures Sorted(Removed(active, t))
      ensures AllNormal(Removed(active, t))
      ensures t !in Removed(active, t)
      ensures Members(Removed(active, t)) <= Members(active)
    {
      var m := Removed(active, t);
      assert allocated(m);
      hide Links, Sorted, FreeLinks, Removed;
      LinksDistinct(timers, active);
      RemovedSorted(active, t);
      RemovedMembers(active, t, m);
    }

    /** tmr_reset: due its period from now. */
    method Reset(now: Time, t: Timer)
      requires Valid() && t in active
      modifies this`timers, this`active, Members(active)`next, Members(active)`prev, t`time
      ensures Valid() && active == Inserted(Removed(old(active), t), t)
      ensures Members(active) == old(Members(active))
      ensures t.time == AddUsecs(now, t.usecs)
    {
      hide Links, Sorted, FreeLinks, Inserted, Removed;
      TimesWithout(t);
      assert allocated(Removed(active, t));
      t.time := AddUsecs(now, t.usecs);
      Delist(t);
      Enlist(t);
    }

    /** tmr_cancel: to the front of the free list. */
    method Cancel(t: Timer)
      requires Valid() && t in active
      modifies this, Members(active)`next, Members(active)`prev
      ensures Valid() && active == Removed(old(active), t) && free == [t] + old(free)
      ensures Members(active) == old(Members(active)) - {t} && Members(free) == old(Members(free)) + {t}
      ensures t.prev == null
    {
      hide Links, Sorted, Removed, FreeLinks;
      TimesWithout(t);
      Delist(t);
      assert allocated(active) && allocated(free);
      t.next := freeTimers;
      FreePush(freeTimers, free, t);
      freeTimers := t;
      t.prev := null;
      free := [t] + free;
    }

    /** One of a test's timers, of none when its interval is zero. */
    method CreateIf(now: Time, proc: TimerProc, test: Test, usecs: int64, periodic: bool, wanted: bool)
      returns (t: Timer?)
      requires Valid() && Bound(active) && Unbound(active, test) && proc != EndOmit
      modifies this, Members(active)`next, Members(active)`prev, Members(free)
      ensures Valid() && Bound(active) && Unbound(active, test)
      ensures if wanted then t != null && t !in old(active) && t.Is(proc, test, usecs, periodic, now) else t == null
      ensures Members(active) == old(Members(active)) + Just(t)
      ensures t != null ==> fresh(t) || t in old(free)
      ensures Members(free) <= old(Members(free)) && forall x :: x in free ==> x in old(free) && x != t
    {
      hide Links, Sorted, Inserted, FreeLinks, AddUsecs, Bound, Unbound;
      t := null;
      if wanted {
        ghost var ns := active;
        assert allocated(ns) && allocated(Clients(ns));
        t := Create(now, proc, test, usecs, periodic);
        InsertedMembers(ns, t, active);
        BoundGrows(ns, active, t);
      }
    }

    method CreatePeriodic(now: Time, test: Test, statsUsecs: int64, reporterUsecs: int64) returns (s: Timer?, r: Timer?)
      requires Valid() && Bound(active) && Unbound(active, test)
      modifies this, Members(active)`next, Members(active)`prev, Members(free)
      ensures Valid() && Bound(active) && Unbound(active, test)
      ensures if statsUsecs != 0 then s != null && s.Is(Stats, test, statsUsecs, true, now) else s == null
      ensures if reporterUsecs != 0 then r != null && r.Is(Report, test, reporterUsecs, true, now) else r == null
      ensures Members(active) == old(Members(active)) + Just(s) + Just(r)
      ensures s != null ==> fresh(s) || s in old(free)
      ensures r != null ==> fresh(r) || r in old(free)
      ensures Members(free) <= old(Members(free))
    {
      hide Links, Sorted, FreeLinks, AddUsecs, AllNormal, Bound, Unbound;
      s := CreateIf(now, Stats, test, statsUsecs, true, statsUsecs != 0);
      r := CreateIf(now, Report, test, reporterUsecs, true, reporterUsecs != 0);
    }

    /** create_client_timers: the test's own timer, and those of its two kinds of report. */
    method CreateTimers(test: Test, now: Time, duration: nat, omit: nat, statsUsecs: int64, reporterUsecs: int64)
      requires Valid() && Bound(active) && Unbound(active, test)
      requires duration + omit < 0x8000_0000
      modifies this, Members(active)`next, Members(active)`prev, Members(free)
      modifies test`timer, test`statsTimer, test`reporterTimer, test`done
      ensures Valid() && Bound(active) && Unbound(active, test) && Running(test, active)
      ensures test.done == (duration == 0 && old(test.done))
      ensures test.timer != null <==> duration != 0
      ensures test.timer != null ==> test.timer.Is(EndTest, test, (duration + omit) * MILLION, false, now)
      ensures test.statsTimer != null <==> statsUsecs != 0
      ensures test.statsTimer != null ==> test.statsTimer.Is(Stats, test, statsUsecs, true, now)
      ensures test.reporterTimer != null <==> reporterUsecs != 0
      ensures test.reporterTimer != null ==> test.reporterTimer.Is(Report, test, reporterUsecs, true, now)
      ensures Members(active) == old(Members(active))
        + Just(test.timer) + Just(test.statsTimer) + Just(test.reporterTimer)
      ensures Members(free) <= old(Members(free))
      ensures test.timer != null ==> fresh(test.timer) || test.timer in old(free)
      ensures test.statsTimer != null ==> fresh(test.statsTimer) || test.statsTimer in old(free)
      ensures test.reporterTimer != null ==> fresh(test.reporterTimer) || test.reporterTimer in old(free)
    {
      hide Links, Sorted, FreeLinks, AddUsecs, AllNormal, Bound, Unbound;
      SetTimers(test, null, null, null);
      if duration != 0 {
        test.done := false;
      }
      var t := CreateIf(now, EndTest, test, (duration + omit) * MILLION, false, duration != 0);
      var s, r := CreatePeriodic(now, test, statsUsecs, reporterUsecs);
      SetTimers(test, t, s, r);
    }

    /** Another test's omit timers do not depend on the timers of this one. */
    method SetTimers(test: Test, t: Timer?, s: Timer?, r: Timer?)
      requires Bound(active) && Unbound(active, test)
      modifies test`timer, test`statsTimer, test`reporterTimer
      ensures Bound(active) && Unbound(active, test)
      ensures test.timer == t && test.statsTimer == s && test.reporterTimer == r
    {
      test.timer, test.statsTimer, test.reporterTimer := t, s, r;
    }

    /** create_client_omit_timer. */
    method CreateOmitTimer(test: Test, now: Time, omit: nat)
      requires Valid() && Bound(active) && Running(test, active) && omit < 0x8000_0000
      modifies this, Members(active)`next, Members(active)`prev, Members(free)
      modifies test`omitTimer, test`omitting
      ensures Valid() && Bound(active) && Running(test, active)
      ensures test.omitting <==> omit != 0
      ensures test.omitTimer != null <==> omit != 0
      ensures test.omitTimer != null ==> test.omitTimer.Is(EndOmit, test, omit * MILLION, false, now)
      ensures Members(active) == old(Members(active)) + Just(test.omitTimer)
      ensures test.omitTimer != null ==> test.omitTimer !in old(active)
    {
      hide Links, Sorted, Inserted, FreeLinks, AddUsecs, Bound, AllNormal;
      if omit == 0 {
        test.omitTimer := null;
        test.omitting := false;
      } else {
        test.omitting := true;
        ghost var ns := active;
        assert allocated(ns) && allocated(Clients(ns));
        var t := Create(now, EndOmit, test, omit * MILLION, false);
        test.omitTimer := t;
        InsertedMembers(ns, t, active);
        BoundGrows(ns, active, t);
      }
    }

    /** The timers of a client's test that starts, as a sweep before the time until requires them. */
    method StartTimers(test: Test, now: Time, duration: nat, omit: nat, statsUsecs: int64, reporterUsecs: int64,
                       ghost until: Time)
      requires Valid() && Bound(active) && (forall t :: t in active ==> t.proc != EndOmit) && Schedulable(active, until)
      requires duration + omit < 0x8000_0000
      requires statsUsecs != 0 ==> statsUsecs > 0 && Fits(until, statsUsecs)
      requires reporterUsecs != 0 ==> reporterUsecs > 0 && Fits(until, reporterUsecs)
      modifies this, Members(active)`next, Members(active)`prev, Members(free)
      modifies test`timer, test`statsTimer, test`reporterTimer, test`done, test`omitTimer, test`omitting
      ensures Valid() && Bound(active) && Schedulable(active, until)
      ensures if omit != 0 then test.omitTimer != null && OnlyOmit(active, test.omitTimer)
              else forall t :: t in active ==> t.proc != EndOmit
      ensures test.omitTimer != null ==> Restarts(test.omitTimer) == Just(test.statsTimer) + Just(test.reporterTimer)
      ensures test.done == (duration == 0 && old(test.done)) && (test.omitting <==> omit != 0)
      ensures test.timer != null <==> duration != 0
      ensures test.timer != null ==> test.timer.Is(EndTest, test, (duration + omit) * MILLION, false, now)
      ensures test.omitTimer != null ==> test.omitTimer.Is(EndOmit, test, omit * MILLION, false, now)
    {
      hide Links, Sorted, FreeLinks, AddUsecs, Bound, AllNormal, Fits, Schedulable, Unbound, Running;
      ghost var ns := active;
      assert allocated(ns);
      AllUnbound(ns, test);
      CreateTimers(test, now, duration, omit, statsUsecs, reporterUsecs);
      CreateOmitTimer(test, now, omit);
      Started(ns, active, test, until);
    }

    /** tmr_timeout: how long until the first timer is due, and None when there is none. */
    method Timeout(now: Time) returns (r: Option<Timeval>)
      requires Valid() && Normal(now)
      ensures r == None <==> active == []
      ensures r.Some? ==> 0 <= r.value.usec < MILLION
      ensures r.Some? ==> forall x :: x in active ==> InMicros(r.value) <= Until(now, x.time)
      ensures r.Some? ==> exists x :: x in active && InMicros(r.value) == Until(now, x.time)
    {
      if timers == null {
        return None;
      }
      assert timers in active;
      var past, diff := Diff(timers.time, now);
      var usecs := if past then 0 else InUsecs(diff);
      r := Some(Timeval(usecs / MILLION, usecs % MILLION));
      assert InMicros(r.value) == Until(now, timers.time);
      forall x | x in active ensures Until(now, timers.time) <= Until(now, x.time) {
        assert x != timers ==> Compare(active[0].time, x.time) <= 0;
      }
    }

    /** What tmr_run does to a periodic timer: due its period after it was. */
    method Reschedule(t: Timer)
      requires Valid() && t in active
      modifies this`timers, this`active, Members(active)`next, Members(active)`prev, t`time
      ensures Valid() && active == Inserted(Removed(old(active), t), t)
      ensures Members(active) == old(Members(active))
      ensures t.time == AddUsecs(old(t.time), t.usecs)
    {
      hide Links, Sorted, FreeLinks, Inserted, Removed;
      TimesWithout(t);
      assert allocated(Removed(active, t));
      t.time := AddUsecs(t.time, t.usecs);
      Delist(t);
      Enlist(t);
    }

    /** tmr_reset by a callback: all but the timers it restarts stay in order. */
    method Restart(now: Time, t: Timer, ghost moved: set<Timer>)
      requires Valid() && t in active && t in moved
      modifies this`timers, this`active, Members(active)`next, Members(active)`prev, t`time
      ensures Valid() && Members(active) == old(Members(active))
      ensures Others(active, moved) == Others(old(active), moved)
      ensures t.time == AddUsecs(now, t.usecs)
    {
      hide Links, Sorted, FreeLinks, Inserted, Removed;
      ghost var ns := active;
      Reset(now, t);
      OthersWithout(ns, t, Removed(ns, t), moved);
      OthersWith(Removed(ns, t), t, active, moved);
    }

    /** The callback of t. Ending the omit period restarts the test's two periodic timers. */
    method RunProc(t: Timer, now: Time, ghost moved: set<Timer>)
      requires Valid() && t in active && Bound(active) && moved == Restarts(t)
      modifies this`timers, this`active, Members(active)`next, Members(active)`prev, Members(active)`time
      modifies t.clientData`done, t.clientData`omitting, t.clientData`timer, t.clientData`omitTimer
      ensures Valid() && Members(active) == old(Members(active))
      ensures Told(old(FlagsOf({t.clientData})), FlagsOf({t.clientData}), {(t.clientData, t.proc)})
      ensures forall x :: x in old(active) ==>
        x.time == if t.proc == EndOmit && x in moved then AddUsecs(now, x.usecs) else old(x.time)
      ensures t.proc == EndOmit ==> Others(active, moved + {t}) == Others(old(active), moved + {t})
      ensures t.proc != EndOmit ==> active == old(active) && forall x :: x in active ==> x.next == old(x.next)
    {
      hide Links, Sorted, FreeLinks, Inserted, Removed, Others, AddUsecs;
      var test := t.clientData;
      if t.proc == EndTest {
        test.timer := null;
        test.done := true;
      } else if t.proc == EndOmit {
        assert test.reporterTimer != null ==> test.reporterTimer in Members(active);
        test.omitTimer := null;
        test.omitting := false;
        if test.statsTimer != null {
          Restart(now, test.statsTimer, moved + {t});
        }
        if test.reporterTimer != null {
          assert test.reporterTimer in Members(active);
          Restart(now, test.reporterTimer, moved + {t});
        }
      }
    }

    /** After the callback: the timer is rescheduled or freed. */
    method Settle(t: Timer, ghost moved: set<Timer>)
      requires Valid() && t in active && t in moved
      modifies this, Members(active)`next, Members(active)`prev, t`time
      ensures Valid()
      ensures Members(active) == if t.periodic then old(Members(active)) else old(Members(active)) - {t}
      ensures free == if t.periodic then old(free) else [t] + old(free)
      ensures t.time == if t.periodic then AddUsecs(old(t.time), t.usecs) else old(t.time)
      ensures active == if t.periodic then Inserted(Removed(old(active), t), t) else Removed(old(active), t)
      ensures Others(active, moved) == Others(old(active), moved)
    {
      hide Links, Sorted, FreeLinks, Inserted, Removed, AddUsecs, Others;
      ghost var ns := active;
      OthersWithout(ns, t, Removed(ns, t), moved);
      if t.periodic {
        Reschedule(t);
        OthersWith(Removed(ns, t), t, active, moved);
      } else {
        Cancel(t);
      }
    }

    /** What tmr_run does to a timer that is due: calls it, then reschedules it or frees it. */
    method Fire(t: Timer, now: Time, ghost moved: set<Timer>)
      requires Valid() && t in active && Bound(active) && moved == Restarts(t)
      modifies this, Members(active)`next, Members(active)`prev, Members(active)`time
      modifies t.clientData`done, t.clientData`omitting, t.clientData`timer, t.clientData`omitTimer
      ensures Valid()
      ensures Told(old(FlagsOf({t.clientData})), FlagsOf({t.clientData}), {(t.clientData, t.proc)})
      ensures Members(active) == if t.periodic then old(Members(active)) else old(Members(active)) - {t}
      ensures free == if t.periodic then old(free) else [t] + old(free)
      ensures forall x :: x in old(active) && x != t ==>
        x.time == if t.proc == EndOmit && x in moved then AddUsecs(now, x.usecs) else old(x.time)
      ensures t.proc == EndOmit ==> Others(active, moved + {t}) == Others(old(active), moved + {t})
      ensures t.periodic ==> t.time == AddUsecs(old(t.time), t.usecs)
      ensures !t.periodic && t.proc != EndOmit ==> t.time == old(t.time)
      ensures t.proc != EndOmit ==>
        active == if t.periodic then Inserted(Removed(old(active), t), t) else Removed(old(active), t)
    {
      hide Links, Sorted, FreeLinks, Inserted, Removed, Bound, AddUsecs, Others, Restarts;
      if t.proc == EndOmit {
        OmitOnce(active, t);
      }
      RunProc(t, now, moved);
      Settle(t, moved + {t});
    }

    /** The same step with what the sweep needs of it: less is owed to the timers of start. */
    method FireDue(t: Timer, now: Time, ghost start: seq<Timer>, ghost moved: set<Timer>)
      requires Valid() && Normal(now) && Bound(active) && Schedulable(active, now) && Members(active) <= Members(start)
      requires t in active && Compare(t.time, now) <= 0 && moved == Restarts(t)
      modifies this, Members(active)`next, Members(active)`prev, Members(active)`time
      modifies t.clientData`done, t.clientData`omitting, t.clientData`timer, t.clientData`omitTimer
      ensures Valid() && Bound(active) && Schedulable(active, now)
      ensures Told(old(FlagsOf({t.clientData})), FlagsOf({t.clientData}), {(t.clientData, t.proc)})
      ensures Members(active) == if t.periodic then old(Members(active)) else old(Members(active)) - {t}
      ensures free == if t.periodic then old(free) else [t] + old(free)
      ensures Debt(start, Members(active), Dues(start), now) < old(Debt(start, Members(active), Dues(start), now))
      ensures t.periodic ==> t.usecs > 0 && Fits(now, t.usecs)
      ensures t.proc != EndOmit ==> HasFired(old(active), t, old(t.time), active, old(Dues(start)), Dues(start))
      ensures t.proc == EndOmit ==>
        HasRestarted(old(active), t, active, moved, old(Dues(start)), Dues(start), now)
    {
      hide Links, Sorted, FreeLinks, Inserted, Removed, Bound, Schedulable, Others, Restarts, HasFired, HasRestarted,
           InUsecs;
      ghost var ns, live, was := active, Members(active), Dues(start);
      assert allocated(ns) && allocated(Clients(ns)) && allocated(was);
      if t.proc == EndOmit {
        RestartsOweNothing(ns, t, moved, now);
      }
      DueOwes(t, now);
      if t.periodic {
        PeriodSettles(ns, t, now);
      }
      hide Owed, AddUsecs, Compare, Normal, Fits;
      Fire(t, now, moved);
      assert Bound(ns) && Schedulable(ns, now);
      StillBound(ns, active, t, now);
      DebtLess(start, live, was, Members(active), Dues(start), now, t);
      if t.proc == EndOmit {
        NowRestarted(ns, t, active, moved, was, Dues(start), now);
      } else {
        NowFired(ns, t, active, was, Dues(start));
      }
    }

    /** And with what has become of the tests: what the callbacks called since flags say. */
    method FireTold(t: Timer, now: Time, ghost start: seq<Timer>, ghost moved: set<Timer>, ghost log: seq<Firing>,
                    ghost tests: set<Test>, ghost flags: map<Test, Flags>)
      requires Valid() && Normal(now) && Bound(active) && Schedulable(active, now) && Members(active) <= Members(start)
      requires t in active && Compare(t.time, now) <= 0 && moved == Restarts(t)
      requires t.clientData in tests && Told(flags, FlagsOf(tests), Calls(log))
      modifies this, Members(active)`next, Members(active)`prev, Members(active)`time
      modifies t.clientData`done, t.clientData`omitting, t.clientData`timer, t.clientData`omitTimer
      ensures Valid() && Bound(active) && Schedulable(active, now)
      ensures Told(flags, FlagsOf(tests), Calls(log + [Firing(t, old(t.time))]))
      ensures Members(active) == if t.periodic then old(Members(active)) else old(Members(active)) - {t}
      ensures free == if t.periodic then old(free) else [t] + old(free)
      ensures Debt(start, Members(active), Dues(start), now) < old(Debt(start, Members(active), Dues(start), now))
      ensures t.periodic ==> t.usecs > 0 && Fits(now, t.usecs)
      ensures t.proc != EndOmit ==> HasFired(old(active), t, old(t.time), active, old(Dues(start)), Dues(start))
      ensures t.proc == EndOmit ==>
        HasRestarted(old(active), t, active, moved, old(Dues(start)), Dues(start), now)
    {
      hide Links, Sorted, FreeLinks, Debt, Bound, Schedulable, AllNormal, HasFired, HasRestarted, Normal, InUsecs,
           Compare, Distinct, Fits, Restarts, Dues, Told, FlagsOf, Calls, Fired;
      ghost var test, calls, f := t.clientData, Calls(log), Firing(t, t.time);
      ghost var was, one := FlagsOf(tests), FlagsOf({test});
      assert allocated(log) && allocated(Fired(log));
      FlagsAre(tests);
      FlagsAre({test});
      FireDue(t, now, start, moved);
      CallsMore(log, f);
      assert Calls(log) == calls;
      FlagsAre(tests);
      FlagsAre({test});
      OneTold(test, t.proc, was, FlagsOf(tests), one, FlagsOf({test}));
      ToldOn(flags, was, calls, FlagsOf(tests), {(test, t.proc)});
    }

    /** The same step as part of a sweep. */
    method FireInSweep(t: Timer, now: Time, ghost start: seq<Timer>, ghost w: Sweep, ghost log: seq<Firing>,
                       ghost tracked: bool, ghost tests: set<Test>, ghost flags: map<Test, Flags>)
      returns (ghost w': Sweep)
      requires Valid() && Normal(now) && Bound(active) && Schedulable(active, now) && Members(active) <= Members(start)
      requires t in active && Compare(t.time, now) <= 0
      requires tracked ==> w.Tracked(start, now) && w.At(start, active, t, log, Dues(start), now)
      requires t.proc == EndOmit && w.omit == Some(t) ==> Restarts(t) == w.restarts
      requires t.clientData in tests && Told(flags, FlagsOf(tests), Calls(log))
      modifies this, Members(active)`next, Members(active)`prev, Members(active)`time
      modifies t.clientData`done, t.clientData`omitting, t.clientData`timer, t.clientData`omitTimer
      ensures Valid() && Bound(active) && Schedulable(active, now)
      ensures Told(flags, FlagsOf(tests), Calls(log + [Firing(t, old(t.time))]))
      ensures Members(active) == if t.periodic then old(Members(active)) else old(Members(active)) - {t}
      ensures Members(active) + Members(free) == old(Members(active) + Members(free))
      ensures Debt(start, Members(active), Dues(start), now) < old(Debt(start, Members(active), Dues(start), now))
      ensures w'.SameTest(w)
      ensures tracked ==>
        w'.Tracked(start, now) && w'.At(start, active, old(t.next), log + [Firing(t, old(t.time))], Dues(start), now)
    {
      hide Links, Sorted, FreeLinks, Debt, Bound, Schedulable, AllNormal, HasFired, HasRestarted, Normal, InUsecs,
           Compare, Distinct, Fits, Sweep.Tracked, Restarts, Sweeping, Reached, Foreseen, Sweep.Goes, Dues, Told,
           FlagsOf, Calls;
      assert t in Members(active) && t in start;
      DueNow(active, t, now, start);
      ghost var ns, due := active, Dues(start);
      assert allocated(ns) && allocated(w) && allocated(due) && allocated(log);
      ghost var next, moved := t.next, Restarts(t);
      w' := w;
      if tracked {
        FollowedBy(timers, start, ns, t, w, log, due, now);
      }
      FireTold(t, now, start, moved, log, tests, flags);
      if tracked {
        assert w.At(start, ns, t, log, due, now);
        assert Sweeping(ns, w.j, t, w.log, w.due0, due, now, w.earlier);
        LinksDistinct(timers, active);
        w' := TrackedStep(start, ns, t, next, w, log, due, now, active, Dues(start));
        StillTracked(start, w, w', now);
      }
    }

    /** tmr_run: fires every timer that is due. The next timer is remembered before a callback runs,
        and stays on the list whatever the callback restarts. r is where the sweep was when the only
        omit timer fired, if it did. */
    method Run(now: Time, ghost o: Option<Timer>) returns (ghost log: seq<Firing>, ghost r: Option<Moment>)
      requires Valid() && Normal(now) && Bound(active) && Schedulable(active, now)
      requires o.Some? ==> OnlyOmit(active, o.value)
      modifies this, Members(active)`next, Members(active)`prev, Members(active)`time
      modifies Clients(active)`done, Clients(active)`omitting, Clients(active)`timer, Clients(active)`omitTimer
      ensures Valid() && Bound(active) && Schedulable(active, now)
      ensures Members(active) + Members(free) == old(Members(active) + Members(free))
      ensures forall x :: x in old(active) && x.periodic ==> x in active
      ensures forall i :: 0 <= i < |log| ==> Compare(log[i].due, now) <= 0
      ensures Told(old(FlagsOf(Clients(active))), FlagsOf(old(Clients(active))), Calls(log))
      ensures old(Quiet(active, now)) ==> Swept(old(active), old(Dues(active)), active, log, now, {})
      ensures o.Some? && Compare(old(o.value.time), now) <= 0 ==>
        r.Some? && OmitSwept(old(active), old(Dues(active)), o.value, old(Restarts(o.value)), r.value, log, now)
    {
      hide Links, Sorted, FreeLinks, Inserted, Removed, Debt, Bound, Schedulable, Owed, AllNormal, Swept, Normal,
        InUsecs, Compare, Sweep.At, Sweep.Tracked, Sweep.QuietFor, Restarts, OmitSwept, OnlyOmit, Quiet, Dues,
        Told, FlagsOf, Calls, Fired;
      ghost var start := active;
      DuesAre(start);
      ghost var w := Sweep(Dues(start), o, if o.Some? then Restarts(o.value) else {}, None, Dues(start), 0, [], {});
      ghost var w0 := w;
      log := [];
      ghost var tests, flags := Clients(active), FlagsOf(Clients(active));
      NobodyTold(flags);
      NoCalls();
      var t := timers;
      FirstIn(timers, active);
      TrackedStart(timers, active, w, now);
      ghost var tracked := w.Tracked(start, now);
      while t != null
        invariant Valid() && Bound(active) && Schedulable(active, now)
        invariant Members(active) <= Members(start)
        invariant Members(active) + Members(free) == old(Members(active) + Members(free))
        invariant forall x :: x in start && x.periodic ==> x in Members(active)
        invariant forall i :: 0 <= i < |log| ==> Compare(log[i].due, now) <= 0
        invariant t == null || t in active
        invariant Told(flags, FlagsOf(tests), Calls(log))
        invariant w.SameTest(w0)
        invariant tracked ==> w.Tracked(start, now) && w.At(start, active, t, log, Dues(start), now)
        decreases Debt(start, Members(active), Dues(start), now)
      {
        NextIn(timers, active, t);
        var next := t.next;
        if Compare(t.time, now) > 0 {
          break;
        }
        assert t in Members(active) && (next == null || next in Members(active) - {t});
        assert t in Members(start) && t.clientData in old(Clients(active));
        ghost var f := Firing(t, t.time);
        w := FireInSweep(t, now, start, w, log, tracked, tests, flags);
        log := log + [f];
        assert next == null || next in Members(active);
        t := next;
      }
      r := w.moment;
      assert t != null ==> t in active;
      if tracked {
        SweepOver(start, active, t, w0, w, log, now);
      }
    }
  }

  /** struct timeval. */
  datatype Timeval = Timeval(sec: int, usec: int)

  function InMicros(v: Timeval): int {
    v.sec * MILLION + v.usec
  }

  /** How many microseconds after now a time is, if it is. */
  function Until(now: Time, time: Time): nat {
    if InUsecs(time) > InUsecs(now) then InUsecs(time) - InUsecs(now) else 0
  }

  /** One call of a callback, and when the timer was due. */
  datatype Firing = Firing(timer: Timer, due: Time)

  ghost function Fired(log: seq<Firing>): set<Timer> {
    set f | f in log :: f.timer
  }

  /** The callbacks called, each with its test. */
  ghost function Calls(log: seq<Firing>): set<(Test, TimerProc)>
    reads Fired(log)`proc, Fired(log)`clientData
  {
    set t | t in Fired(log) :: (t.clientData, t.proc)
  }

  lemma NoCalls()
    ensures Calls([]) == {}
  {
  }

  lemma CallsMore(log: seq<Firing>, f: Firing)
    ensures Calls(log + [f]) == Calls(log) + {(f.timer.clientData, f.timer.proc)}
  {
    assert Fired(log + [f]) == Fired(log) + {f.timer};
  }

  /** What the callbacks change of a test. */
  datatype Flags = Flags(done: bool, omitting: bool, timer: Timer?, omitTimer: Timer?)

  ghost function FlagsOf(tests: set<Test>): map<Test, Flags>
    reads tests`done, tests`omitting, tests`timer, tests`omitTimer
  {
    map c | c in tests :: Flags(c.done, c.omitting, c.timer, c.omitTimer)
  }

  /** A test is done and its timer gone if its time was over, and it no longer omits and its omit timer
      is gone if that period was; otherwise all is as it was. */
  ghost predicate Told(was: map<Test, Flags>, now: map<Test, Flags>, calls: set<(Test, TimerProc)>) {
    && now.Keys == was.Keys
    && forall c :: c in was ==>
      var over, begun := (c, EndTest) in calls, (c, EndOmit) in calls;
      now[c] == Flags(was[c].done || over, was[c].omitting && !begun, if over then null else was[c].timer,
                      if begun then null else was[c].omitTimer)
  }

  /** Every test whose time was over is done. */
  ghost predicate TestsOver(start: seq<Timer>, due0: map<Timer, Time>, now: Time)
    reads start`proc, start`clientData, Clients(start)`done, Clients(start)`timer
  {
    forall t :: t in start && t.proc == EndTest && t in due0 && InUsecs(due0[t]) <= InUsecs(now) ==>
      t.clientData.done && t.clientData.timer == null
  }

  /** A test is done when its timer has fired, */
  lemma FiredTestEnds(log: seq<Firing>, t: Timer, tests: set<Test>, was: map<Test, Flags>)
    requires Count(log, t) > 0 && t.proc == EndTest && t.clientData in was
    requires Told(was, FlagsOf(tests), Calls(log))
    ensures t.clientData.done && t.clientData.timer == null
  {
    Counted(log, t);
    assert t in Fired(log) && (t.clientData, EndTest) in Calls(log);
  }

  lemma {:induction false} Counted(log: seq<Firing>, t: Timer)
    requires Count(log, t) > 0
    ensures exists f :: f in log && f.timer == t
  {
    var n := |log| - 1;
    if log[n].timer != t {
      Counted(log[..n], t);
    }
    assert log[n] in log;
  }

  /** so all are whose timers were due. */
  lemma FiredTestsEnd(start: seq<Timer>, due0: map<Timer, Time>, ns: seq<Timer>, log: seq<Firing>, now: Time,
                      tests: set<Test>, was: map<Test, Flags>)
    requires Swept(start, due0, ns, log, now, {}) && Told(was, FlagsOf(tests), Calls(log)) && was.Keys == Clients(start)
    ensures TestsOver(start, due0, now)
  {
    hide InUsecs, Count, History, Told, FlagsOf, Calls;
    forall t | t in start && t.proc == EndTest && t in due0 && InUsecs(due0[t]) <= InUsecs(now)
      ensures t.clientData.done && t.clientData.timer == null
    {
      FiredTestEnds(log, t, tests, was);
    }
  }

  lemma FlagsAre(tests: set<Test>)
    ensures var flags := FlagsOf(tests);
      flags.Keys == tests && forall c :: c in tests ==> flags[c] == Flags(c.done, c.omitting, c.timer, c.omitTimer)
  {
  }

  /** A callback tells its own test and no other. */
  lemma OneTold(test: Test, proc: TimerProc, was: map<Test, Flags>, now: map<Test, Flags>, one: map<Test, Flags>,
                one': map<Test, Flags>)
    requires Told(one, one', {(test, proc)}) && test in one && test in was && was.Keys == now.Keys
    requires was[test] == one[test] && now[test] == one'[test]
    requires forall c :: c in was && c != test ==> now[c] == was[c]
    ensures Told(was, now, {(test, proc)})
  {
  }

  lemma NobodyTold(was: map<Test, Flags>)
    ensures Told(was, was, {})
  {
  }

  lemma ToldOn(was: map<Test, Flags>, now: map<Test, Flags>, calls: set<(Test, TimerProc)>, next: map<Test, Flags>,
               more: set<(Test, TimerProc)>)
    requires Told(was, now, calls) && Told(now, next, more)
    ensures Told(was, next, calls + more)
  {
  }

  ghost function Clients(ns: seq<Timer>): set<Test>
    reads ns`clientData
  {
    set t | t in ns :: t.clientData
  }

  ghost function Dues(ns: seq<Timer>): map<Timer, Time>
    reads ns`time
  {
    map t | t in ns :: t.time
  }

  lemma AmongMembers(ns: seq<Timer>, start: seq<Timer>)
    requires Members(ns) <= Members(start)
    ensures forall x :: x in ns ==> x in start
  {
    assert forall x :: x in ns ==> x in Members(ns);
  }

  lemma DuesAre(ns: seq<Timer>)
    ensures Dues(ns).Keys == Members(ns) && forall x :: x in ns ==> Dues(ns)[x] == x.time
  {
  }

  /** Periodic timers have a period, and one more period after now is still a time. */
  ghost predicate Schedulable(ns: seq<Timer>, now: Time)
    reads ns`periodic, ns`usecs
  {
    forall t :: t in ns && t.periodic ==> t.usecs > 0 && Fits(now, t.usecs)
  }

  lemma StillBound(ns: seq<Timer>, m: seq<Timer>, t: Timer, now: Time)
    requires Bound(ns) && Schedulable(ns, now)
    requires Members(m) == if t.periodic then Members(ns) else Members(ns) - {t}
    ensures Bound(m) && Schedulable(m, now)
  {
    assert forall x :: x in m ==> x in Members(m);
    assert forall x :: x in ns && (x != t || t.periodic) ==> x in Members(m);
  }

  lemma FirstIn(head: Timer?, ns: seq<Timer>)
    requires Links(head, ns)
    ensures head == null || head in ns
  {
  }

  lemma SweepAt(head: Timer?, ns: seq<Timer>, j: nat, t: Timer, log: seq<Firing>, due0: map<Timer, Time>,
                due: map<Timer, Time>, now: Time, earlier: set<Timer>)
    requires Links(head, ns) && Sweeping(ns, j, t, log, due0, due, now, earlier)
    ensures j < |ns| && ns[j] == t && t in due && t.next == if j + 1 < |ns| then ns[j + 1] else null
  {
    hide Passed, Accounts, UpTo, History;
    Neighbours(head, ns, j);
  }

  lemma DueNow(ns: seq<Timer>, t: Timer, now: Time, start: seq<Timer>)
    requires AllNormal(ns) && t in ns && Normal(now) && Compare(t.time, now) <= 0 && t in start
    ensures Normal(t.time) && InUsecs(t.time) <= InUsecs(now)
    ensures t in Dues(start) && Dues(start)[t] == t.time
  {
  }

  lemma LateNow(ns: seq<Timer>, t: Timer, now: Time)
    requires AllNormal(ns) && t in ns && Normal(now) && Compare(t.time, now) > 0
    ensures InUsecs(t.time) > InUsecs(now)
  {
  }

  lemma NextIn(head: Timer?, ns: seq<Timer>, t: Timer)
    requires Links(head, ns) && t in ns
    ensures t.next == null || (t.next in ns && t.next != t)
  {
    var k :| 0 <= k < |ns| && ns[k] == t;
    Neighbours(head, ns, k);
  }

  /** What is owed to a timer: the microseconds by which it is late, and one more when it is due. */
  function Owed(time: Time, now: Time): nat {
    if InUsecs(time) <= InUsecs(now) then InUsecs(now) - InUsecs(time) + 1 else 0
  }

  lemma LaterOwesLess(time: Time, now: Time, usecs: int64)
    requires Normal(time) && Normal(now) && InUsecs(time) <= InUsecs(now) && usecs > 0 && Fits(now, usecs)
    ensures InUsecs(AddUsecs(time, usecs)) == InUsecs(time) + usecs
    ensures Owed(AddUsecs(time, usecs), now) < Owed(time, now)
  {
    hide AddUsecs;
    AddUsecsIsAddition(time, usecs);
  }

  lemma PeriodSettles(ns: seq<Timer>, t: Timer, now: Time)
    requires t in ns && t.periodic && Schedulable(ns, now) && Normal(t.time) && Normal(now) && Compare(t.time, now) <= 0
    ensures t.usecs > 0 && Fits(now, t.usecs)
    ensures Owed(AddUsecs(t.time, t.usecs), now) < Owed(t.time, now)
  {
    LaterOwesLess(t.time, now, t.usecs);
  }

  /** The periodic timers of a test are on the list. */
  ghost predicate Running(test: Test, ns: seq<Timer>)
    reads test`statsTimer, test`reporterTimer, Just(test.statsTimer)`periodic, Just(test.reporterTimer)`periodic
  {
    && (test.statsTimer != null ==> test.statsTimer in ns && test.statsTimer.periodic)
    && (test.reporterTimer != null ==> test.reporterTimer in ns && test.reporterTimer.periodic)
  }

  /** No omit timer of that test is on the list. */
  ghost predicate Unbound(ns: seq<Timer>, test: Test)
    reads ns`proc, ns`clientData
  {
    forall t :: t in ns && t.proc == EndOmit ==> t.clientData != test
  }

  lemma BoundGrows(ns: seq<Timer>, m: seq<Timer>, t: Timer)
    requires Bound(ns) && forall x :: x in m <==> x == t || x in ns
    requires t.proc == EndOmit ==> !t.periodic && Running(t.clientData, m)
    ensures Bound(m)
    ensures forall test: Test :: t.proc != EndOmit && Unbound(ns, test) ==> Unbound(m, test)
  {
  }

  lemma AllUnbound(ns: seq<Timer>, test: Test)
    requires forall t :: t in ns ==> t.proc != EndOmit
    ensures Unbound(ns, test)
  {
  }

  lemma Started(ns: seq<Timer>, m: seq<Timer>, test: Test, until: Time)
    requires Schedulable(ns, until) && forall t :: t in ns ==> t.proc != EndOmit
    requires Members(m) == Members(ns)
      + Just(test.timer) + Just(test.statsTimer) + Just(test.reporterTimer) + Just(test.omitTimer)
    requires test.timer != null ==> test.timer.proc == EndTest && !test.timer.periodic
    requires var t := test.statsTimer; t != null ==> t.proc == Stats && t.usecs > 0 && Fits(until, t.usecs)
    requires var t := test.reporterTimer; t != null ==> t.proc == Report && t.usecs > 0 && Fits(until, t.usecs)
    requires var t := test.omitTimer; t != null ==> t.proc == EndOmit && !t.periodic && t.clientData == test
    ensures Schedulable(m, until)
    ensures if test.omitTimer != null then OnlyOmit(m, test.omitTimer) else forall t :: t in m ==> t.proc != EndOmit
    ensures test.omitTimer != null ==> Restarts(test.omitTimer) == Just(test.statsTimer) + Just(test.reporterTimer)
  {
    hide Fits;
    assert forall t :: t in m <==> t in Members(m);
  }

  lemma OmitOnce(ns: seq<Timer>, t: Timer)
    requires Bound(ns) && t in ns && t.proc == EndOmit
    ensures !t.periodic
  {
  }

  lemma DueOwes(t: Timer, now: Time)
    requires Normal(t.time) && Normal(now) && Compare(t.time, now) <= 0
    ensures Owed(t.time, now) > 0
  {
  }

  /** What an omit timer's callback restarts is running, and no longer due. */
  lemma RestartsOweNothing(ns: seq<Timer>, o: Timer, moved: set<Timer>, now: Time)
    requires Schedulable(ns, now) && Bound(ns) && Normal(now) && o in ns && o.proc == EndOmit && moved == Restarts(o)
    ensures !o.periodic
    ensures forall x :: x in moved ==> x in ns && x != o
    ensures forall x :: x in moved ==> var r := AddUsecs(now, x.usecs); Owed(r, now) == 0 && InUsecs(r) > InUsecs(now)
  {
    hide InUsecs, AddUsecs, Fits, Normal;
    forall x | x in moved
      ensures var r := AddUsecs(now, x.usecs); Owed(r, now) == 0 && InUsecs(r) > InUsecs(now)
    {
      assert x in ns && x.periodic;
      LaterOwesLess(now, now, x.usecs);
    }
  }

  lemma NowRestarted(ns: seq<Timer>, o: Timer, m: seq<Timer>, moved: set<Timer>, due: map<Timer, Time>,
                     due': map<Timer, Time>, now: Time)
    requires Others(m, moved + {o}) == Others(ns, moved + {o}) && Members(m) == Members(ns) - {o}
    requires forall x :: x in ns ==> x in due && x in due' && due'[x] == x.time
    requires forall x :: x in ns && x != o && x !in moved ==> x.time == due[x]
    requires forall x :: x in ns && x in moved && x != o ==> InUsecs(x.time) > InUsecs(now)
    ensures HasRestarted(ns, o, m, moved, due, due', now)
  {
    hide InUsecs, Others;
    forall x | x in m ensures x in ns && x != o {
      assert x in Members(m);
    }
  }

  lemma NowFired(ns: seq<Timer>, t: Timer, m: seq<Timer>, due: map<Timer, Time>, due': map<Timer, Time>)
    requires t in ns && m == if t.periodic then Inserted(Removed(ns, t), t) else Removed(ns, t)
    requires forall x :: x in ns ==> x in due && x in due' && due'[x] == x.time
    requires forall x :: x in ns && x != t ==> x.time == due[x]
    requires t.time == if t.periodic then AddUsecs(due[t], t.usecs) else due[t]
    ensures HasFired(ns, t, due[t], m, due, due')
  {
    hide Inserted, Removed, AddUsecs;
  }

  /** What is owed to all timers of ns that are still live. */
  ghost function Debt(ns: seq<Timer>, live: set<Timer>, due: map<Timer, Time>, now: Time): nat {
    if ns == [] then 0
    else (if ns[0] in live && ns[0] in due then Owed(due[ns[0]], now) else 0) + Debt(ns[1..], live, due, now)
  }

  lemma {:induction false} DebtNoMore(ns: seq<Timer>, live: set<Timer>, due: map<Timer, Time>, live': set<Timer>,
                                      due': map<Timer, Time>, now: Time)
    requires forall x :: x in ns && x in live' && x in due' ==>
      x in live && x in due && Owed(due'[x], now) <= Owed(due[x], now)
    ensures Debt(ns, live', due', now) <= Debt(ns, live, due, now)
  {
    if ns != [] {
      DebtNoMore(ns[1..], live, due, live', due', now);
    }
  }

  /** Firing t takes off the debt: t itself is owed less, and nobody is owed more. */
  lemma {:induction false} DebtLess(ns: seq<Timer>, live: set<Timer>, due: map<Timer, Time>, live': set<Timer>,
                                    due': map<Timer, Time>, now: Time, t: Timer)
    requires t in ns && t in live && t in due
    requires Owed(due[t], now) > if t in live' && t in due' then Owed(due'[t], now) else 0
    requires forall x :: x in ns && x in live' && x in due' ==>
      x in live && x in due && Owed(due'[x], now) <= Owed(due[x], now)
    ensures Debt(ns, live', due', now) < Debt(ns, live, due, now)
  {
    if ns[0] == t {
      DebtNoMore(ns[1..], live, due, live', due', now);
    } else {
      DebtLess(ns[1..], live, due, live', due', now, t);
    }
  }

  /** The omit timer fires once, and the timers it restarts are running. */
  ghost predicate Bound(ns: seq<Timer>)
    reads ns`proc, ns`periodic, ns`clientData, Clients(ns)`statsTimer, Clients(ns)`reporterTimer
  {
    forall t :: t in ns && t.proc == EndOmit ==>
      !t.periodic && (var c := t.clientData;
        (c.statsTimer != null ==> c.statsTimer in ns && c.statsTimer.periodic)
        && (c.reporterTimer != null ==> c.reporterTimer in ns && c.reporterTimer.periodic))
  }

  /** The timers the callback of an omit timer restarts. */
  ghost function Restarts(t: Timer): set<Timer>
    reads t`clientData, t.clientData`statsTimer, t.clientData`reporterTimer
  {
    var c := t.clientData;
    (if c.statsTimer == null then {} else {c.statsTimer})
    + (if c.reporterTimer == null then {} else {c.reporterTimer})
  }

  // ---------- what a sweep does when no callback touches the list ----------

  /** No omit timer is due. */
  ghost predicate Quiet(ns: seq<Timer>, now: Time)
    reads ns`proc, ns`time
  {
    forall t :: t in ns && t.proc == EndOmit ==> Compare(t.time, now) > 0
  }

  ghost predicate OnlyOmit(ns: seq<Timer>, o: Timer)
    reads ns`proc
  {
    o in ns && forall t :: t in ns ==> (t.proc == EndOmit <==> t == o)
  }

  /** How often t fired. */
  ghost function Count(log: seq<Firing>, t: Timer): nat {
    if log == [] then 0
    else Count(log[..|log| - 1], t) + if log[|log| - 1].timer == t then 1 else 0
  }

  lemma CountAppend(log: seq<Firing>, f: Firing, x: Timer)
    ensures Count(log + [f], x) == Count(log, x) + if f.timer == x then 1 else 0
  {
    assert (log + [f])[..|log|] == log;
  }

  /** Nothing fires before it is due or out of order, and the n-th firing of a timer comes n
      periods after its first due time. */
  ghost predicate History(log: seq<Firing>, due0: map<Timer, Time>, now: Time)
    reads due0.Keys`usecs
  {
    && (forall i :: 0 <= i < |log| ==> InUsecs(log[i].due) <= InUsecs(now))
    && (forall i, k :: 0 <= i < k < |log| ==> InUsecs(log[i].due) <= InUsecs(log[k].due))
    && (forall i :: 0 <= i < |log| ==>
          && log[i].timer in due0
          && InUsecs(log[i].due) == InUsecs(due0[log[i].timer]) + Count(log[..i], log[i].timer) * log[i].timer.usecs)
  }

  lemma {:induction false} HistoryGrows(log: seq<Firing>, f: Firing, due0: map<Timer, Time>, now: Time)
    requires History(log, due0, now) && f.timer in due0
    requires InUsecs(f.due) <= InUsecs(now) && (log != [] ==> InUsecs(log[|log| - 1].due) <= InUsecs(f.due))
    requires InUsecs(f.due) == InUsecs(due0[f.timer]) + Count(log, f.timer) * f.timer.usecs
    ensures History(log + [f], due0, now)
  {
    hide Count, InUsecs;
    var m := log + [f];
    forall i | 0 <= i < |m| ensures m[..i] == if i < |log| then log[..i] else log {
    }
  }

  /** In order of time, and each once. */
  ghost predicate Queue(ns: seq<Timer>, due: map<Timer, Time>) {
    && Distinct(ns)
    && (forall x :: x in ns ==> x in due)
    && (forall a, b :: 0 <= a < b < |ns| ==> InUsecs(due[ns[a]]) <= InUsecs(due[ns[b]]))
  }

  /** The first j have fired, now or earlier, and are periodic, or they are not due. */
  ghost predicate Passed(ns: seq<Timer>, j: nat, log: seq<Firing>, due: map<Timer, Time>, now: Time,
                         earlier: set<Timer>)
    reads ns`periodic
  {
    && j <= |ns|
    && forall k :: 0 <= k < j ==>
      || (ns[k].periodic && (ns[k] in earlier || Count(log, ns[k]) > 0))
      || (ns[k] in due && InUsecs(due[ns[k]]) > InUsecs(now))
  }

  /** Each timer is due one period later per firing; the one-shot ones that fired are gone. */
  ghost predicate Accounts(ns: seq<Timer>, log: seq<Firing>, due0: map<Timer, Time>, due: map<Timer, Time>)
    reads ns`usecs, ns`periodic, due0.Keys`periodic
  {
    && (forall x :: x in ns ==> x in due && x in due0 && InUsecs(due[x]) == InUsecs(due0[x]) + Count(log, x) * x.usecs)
    && (forall x :: x in ns && !x.periodic ==> Count(log, x) == 0)
    && (forall x :: x in due0 && x !in ns ==> !x.periodic && Count(log, x) == 1)
  }

  /** The last firing was due no later than the timer the sweep is at. */
  ghost predicate UpTo(log: seq<Firing>, ns: seq<Timer>, j: nat, due: map<Timer, Time>) {
    log != [] && j < |ns| ==> ns[j] in due && InUsecs(log[|log| - 1].due) <= InUsecs(due[ns[j]])
  }

  lemma CountsAfter(log: seq<Firing>, f: Firing)
    ensures forall x {:trigger Count(log + [f], x)} ::
      Count(log + [f], x) == Count(log, x) + if f.timer == x then 1 else 0
  {
    forall x ensures Count(log + [f], x) == Count(log, x) + if f.timer == x then 1 else 0 {
      CountAppend(log, f, x);
    }
  }

  lemma WithoutMembers(ns: seq<Timer>, j: nat, m: seq<Timer>)
    requires Distinct(ns) && j < |ns| && m == Without(ns, j)
    ensures forall x :: x in m <==> x in ns && x != ns[j]
  {
    assert ns == ns[..j] + [ns[j]] + ns[j + 1..];
  }

  lemma QueueWithout(ns: seq<Timer>, j: nat, due: map<Timer, Time>, m: seq<Timer>)
    requires Queue(ns, due) && j < |ns| && m == Without(ns, j)
    ensures Queue(m, due)
  {
    hide InUsecs;
    WithoutMembers(ns, j, m);
  }

  lemma AccountsWithout(ns: seq<Timer>, j: nat, log: seq<Firing>, f: Firing, due0: map<Timer, Time>,
                        due: map<Timer, Time>, m: seq<Timer>)
    requires Distinct(ns) && Accounts(ns, log, due0, due) && j < |ns| && !ns[j].periodic && f.timer == ns[j]
    requires m == Without(ns, j)
    ensures Accounts(m, log + [f], due0, due)
  {
    hide Count, InUsecs;
    CountsAfter(log, f);
    WithoutMembers(ns, j, m);
    hide Distinct, Without;
  }

  /** A one-shot timer fires and leaves the list. */
  lemma OneShotFired(ns: seq<Timer>, j: nat, log: seq<Firing>, f: Firing, due0: map<Timer, Time>, due: map<Timer, Time>,
                     m: seq<Timer>, now: Time, earlier: set<Timer>)
    requires Queue(ns, due) && Passed(ns, j, log, due, now, earlier) && Accounts(ns, log, due0, due)
    requires j < |ns| && !ns[j].periodic && m == Without(ns, j) && f == Firing(ns[j], due[ns[j]])
    ensures Queue(m, due) && Passed(m, j, log + [f], due, now, earlier) && Accounts(m, log + [f], due0, due)
    ensures UpTo(log + [f], m, j, due)
  {
    hide Count, InUsecs, Accounts, Queue, Passed, UpTo, Without, Distinct;
    QueueOnce(ns, due);
    AccountsWithout(ns, j, log, f, due0, due, m);
    QueueWithout(ns, j, due, m);
    PassedWithout(ns, j, log, f, due, m, now, earlier);
  }

  lemma QueueOnce(ns: seq<Timer>, due: map<Timer, Time>)
    requires Queue(ns, due)
    ensures Distinct(ns)
  {
  }

  lemma PassedWithout(ns: seq<Timer>, j: nat, log: seq<Firing>, f: Firing, due: map<Timer, Time>, m: seq<Timer>,
                      now: Time, earlier: set<Timer>)
    requires Queue(ns, due) && Passed(ns, j, log, due, now, earlier)
    requires j < |ns| && m == Without(ns, j) && f == Firing(ns[j], due[ns[j]])
    ensures Passed(m, j, log + [f], due, now, earlier) && UpTo(log + [f], m, j, due)
  {
    hide Count, InUsecs, Without, Distinct;
    CountsAfter(log, f);
    if j < |m| {
      assert m[j] == ns[j + 1];
    }
  }

  lemma QueueWith(ns: seq<Timer>, p: nat, t: Timer, due: map<Timer, Time>, m: seq<Timer>)
    requires Queue(ns, due) && t !in ns && p <= |ns| && m == With(ns, p, t) && t in due
    requires p > 0 ==> InUsecs(due[ns[p - 1]]) <= InUsecs(due[t])
    requires p < |ns| ==> InUsecs(due[t]) <= InUsecs(due[ns[p]])
    ensures Queue(m, due)
  {
    hide InUsecs;
    assert forall x :: x in m ==> x == t || x in ns;
    forall a, b | 0 <= a < b < |m| ensures InUsecs(due[m[a]]) <= InUsecs(due[m[b]]) {
      var a', b' := if a > p then a - 1 else a, if b > p then b - 1 else b;
      if a == p {
        assert p < b' ==> InUsecs(due[ns[p]]) <= InUsecs(due[ns[b']]);
      } else if b == p {
        assert a' < p - 1 ==> InUsecs(due[ns[a']]) <= InUsecs(due[ns[p - 1]]);
      } else {
        assert InUsecs(due[ns[a']]) <= InUsecs(due[ns[b']]);
      }
    }
  }

  lemma SameQueue(ns: seq<Timer>, due: map<Timer, Time>, due': map<Timer, Time>)
    requires Queue(ns, due) && forall x :: x in ns ==> x in due' && due'[x] == due[x]
    ensures Queue(ns, due')
  {
    hide InUsecs;
  }

  /** A timer never moves in front of where it was. */
  lemma QueueBack(ns: seq<Timer>, j: nat, due: map<Timer, Time>, due': map<Timer, Time>, rest: seq<Timer>, p: nat,
                  m: seq<Timer>)
    requires Queue(ns, due) && j < |ns| && rest == Without(ns, j) && p <= |rest| && m == With(rest, p, ns[j])
    requires ns[j] in due' && InUsecs(due'[ns[j]]) >= InUsecs(due[ns[j]])
    requires forall x :: x in rest ==> x in due' && due'[x] == due[x]
    requires p > 0 ==> InUsecs(due'[rest[p - 1]]) <= InUsecs(due'[ns[j]])
    requires p < |rest| ==> InUsecs(due'[ns[j]]) < InUsecs(due'[rest[p]])
    ensures j <= p && Queue(m, due')
  {
    hide InUsecs, With;
    WithoutMembers(ns, j, rest);
    QueueWithout(ns, j, due, rest);
    assert j <= p;
    hide Without, Queue;
    SameQueue(rest, due, due');
    QueueWith(rest, p, ns[j], due', m);
  }

  lemma AccountsMoved(ns: seq<Timer>, j: nat, log: seq<Firing>, f: Firing, due0: map<Timer, Time>,
                      due: map<Timer, Time>, due': map<Timer, Time>, m: seq<Timer>)
    requires Accounts(ns, log, due0, due) && j < |ns| && ns[j].periodic && f.timer == ns[j]
    requires ns[j] in due' && InUsecs(due'[ns[j]]) == InUsecs(due[ns[j]]) + ns[j].usecs
    requires forall x :: x in ns && x != ns[j] ==> x in due' && due'[x] == due[x]
    requires forall x :: x in m <==> x in ns
    ensures Accounts(m, log + [f], due0, due')
  {
    hide Count, InUsecs;
    CountsAfter(log, f);
    var c, u := Count(log, ns[j]), ns[j].usecs;
    assert (c + 1) * u == c * u + u;
  }

  lemma WithMembers(ns: seq<Timer>, p: nat, t: Timer, m: seq<Timer>)
    requires p <= |ns| && m == With(ns, p, t)
    ensures forall x :: x in m <==> x == t || x in ns
  {
    assert ns == ns[..p] + ns[p..];
  }

  lemma PassedMoved(ns: seq<Timer>, j: nat, log: seq<Firing>, f: Firing, due: map<Timer, Time>, due': map<Timer, Time>,
                    rest: seq<Timer>, p: nat, m: seq<Timer>, now: Time, earlier: set<Timer>)
    requires Queue(ns, due) && Passed(ns, j, log, due, now, earlier)
    requires j < |ns| && ns[j].periodic && f == Firing(ns[j], due[ns[j]])
    requires rest == Without(ns, j) && j <= p <= |rest| && m == With(rest, p, ns[j])
    requires forall x :: x in ns && x != ns[j] ==> x in due' && due'[x] == due[x]
    ensures var j' := if p == j then j + 1 else j;
      && Passed(m, j', log + [f], due', now, earlier) && UpTo(log + [f], m, j', due')
      && (if j + 1 < |ns| then j' < |m| && m[j'] == ns[j + 1] else j' == |m|)
  {
    hide Count, InUsecs, Without, With;
    CountsAfter(log, f);
    var j' := if p == j then j + 1 else j;
    forall k | 0 <= k < j'
      ensures || (m[k].periodic && (m[k] in earlier || Count(log + [f], m[k]) > 0))
              || (m[k] in due' && InUsecs(due'[m[k]]) > InUsecs(now))
    {
      assert m[k] == ns[k];
    }
    if j + 1 < |ns| {
      assert m[j'] == ns[j + 1] && ns[j + 1] != ns[j];
    }
  }

  /** A periodic timer fires and goes back behind all timers due no later. */
  lemma PeriodicFired(ns: seq<Timer>, j: nat, log: seq<Firing>, f: Firing, due0: map<Timer, Time>,
                      due: map<Timer, Time>, due': map<Timer, Time>, rest: seq<Timer>, p: nat, m: seq<Timer>, now: Time,
                      earlier: set<Timer>)
    requires Queue(ns, due) && Passed(ns, j, log, due, now, earlier) && Accounts(ns, log, due0, due)
    requires j < |ns| && ns[j].periodic && ns[j].usecs > 0 && f == Firing(ns[j], due[ns[j]])
    requires rest == Without(ns, j) && p <= |rest| && m == With(rest, p, ns[j])
    requires ns[j] in due' && InUsecs(due'[ns[j]]) == InUsecs(due[ns[j]]) + ns[j].usecs
    requires forall x :: x in rest ==> x in due' && due'[x] == due[x]
    requires p > 0 ==> InUsecs(due'[rest[p - 1]]) <= InUsecs(due'[ns[j]])
    requires p < |rest| ==> InUsecs(due'[ns[j]]) < InUsecs(due'[rest[p]])
    ensures var j' := if p == j then j + 1 else j;
      && Queue(m, due') && Passed(m, j', log + [f], due', now, earlier) && Accounts(m, log + [f], due0, due')
      && UpTo(log + [f], m, j', due')
      && (if j + 1 < |ns| then j' < |m| && m[j'] == ns[j + 1] else j' == |m|)
  {
    hide Count, InUsecs, Accounts, Without, With, Passed, UpTo;
    WithoutMembers(ns, j, rest);
    WithMembers(rest, p, ns[j], m);
    QueueBack(ns, j, due, due', rest, p, m);
    AccountsMoved(ns, j, log, f, due0, due, due', m);
    PassedMoved(ns, j, log, f, due, due', rest, p, m, now, earlier);
  }

  /** The sweep is at t, the timer at position j. */
  ghost predicate Sweeping(ns: seq<Timer>, j: nat, t: Timer?, log: seq<Firing>, due0: map<Timer, Time>,
                           due: map<Timer, Time>, now: Time, earlier: set<Timer>)
    reads ns`usecs, ns`periodic, due0.Keys`usecs, due0.Keys`periodic
  {
    && Queue(ns, due) && Passed(ns, j, log, due, now, earlier) && Accounts(ns, log, due0, due) && UpTo(log, ns, j, due)
    && History(log, due0, now)
    && t == if j < |ns| then ns[j] else null
  }

  /** The heap after t, due at was, has fired: m is the new list, and only t's time has changed. */
  ghost predicate HasFired(ns: seq<Timer>, t: Timer, was: Time, m: seq<Timer>, due: map<Timer, Time>,
                           due': map<Timer, Time>)
    requires t in ns
    reads ns`time, ns`periodic, ns`usecs
  {
    && m == (if t.periodic then Inserted(Removed(ns, t), t) else Removed(ns, t))
    && (forall x :: x in ns ==> x in due' && due'[x] == x.time)
    && (forall x :: x in ns && x != t ==> x in due && due[x] == due'[x])
    && (t.periodic ==> t.time == AddUsecs(was, t.usecs))
  }

  /** The place of the timer behind t, at j, when t has fired. */
  ghost function NextAt(ns: seq<Timer>, j: nat, t: Timer): nat
    requires t in ns
    reads ns`time, t`time, t`periodic
  {
    if t.periodic && Position(Removed(ns, t), t.time) == j then j + 1 else j
  }

  lemma SweepStep(ns: seq<Timer>, j: nat, t: Timer, log: seq<Firing>, due0: map<Timer, Time>, due: map<Timer, Time>,
                  now: Time, m: seq<Timer>, due': map<Timer, Time>, earlier: set<Timer>)
    returns (j': nat)
    requires Sweeping(ns, j, t, log, due0, due, now, earlier)
    requires InUsecs(due[t]) <= InUsecs(now) && Normal(due[t]) && Normal(now)
    requires HasFired(ns, t, due[t], m, due, due')
    requires AllNormal(m) && (t.periodic ==> t.usecs > 0 && Fits(now, t.usecs))
    ensures j' == NextAt(ns, j, t)
    ensures var next := if j + 1 < |ns| then ns[j + 1] else null;
      Sweeping(m, j', next, log + [Firing(t, due[t])], due0, due', now, earlier)
  {
    InQueue(ns, j, due);
    hide Inserted, Removed, Queue, Passed, Accounts, UpTo, History, Count, InUsecs, AddUsecs;
    var f := Firing(t, due[t]);
    FirstIndex(ns, j, due);
    StepHistory(ns, j, log, f, due0, due, now);
    if t.periodic {
      j' := StepPeriodic(ns, j, t, log, due0, due, now, m, due', earlier);
    } else {
      j' := StepOneShot(ns, j, t, log, due0, due, now, m, due', earlier);
    }
  }

  lemma FirstIndex(ns: seq<Timer>, j: nat, due: map<Timer, Time>)
    requires Queue(ns, due) && j < |ns|
    ensures Removed(ns, ns[j]) == Without(ns, j)
  {
    assert IndexOf(ns, ns[j]) == j;
  }

  lemma StepHistory(ns: seq<Timer>, j: nat, log: seq<Firing>, f: Firing, due0: map<Timer, Time>, due: map<Timer, Time>,
                    now: Time)
    requires History(log, due0, now) && Accounts(ns, log, due0, due) && UpTo(log, ns, j, due)
    requires j < |ns| && f == Firing(ns[j], due[ns[j]]) && InUsecs(f.due) <= InUsecs(now)
    ensures History(log + [f], due0, now)
  {
    hide Count, InUsecs, History;
    HistoryGrows(log, f, due0, now);
  }

  lemma StepPeriodic(ns: seq<Timer>, j: nat, t: Timer, log: seq<Firing>, due0: map<Timer, Time>, due: map<Timer, Time>,
                     now: Time, m: seq<Timer>, due': map<Timer, Time>, earlier: set<Timer>)
    returns (j': nat)
    requires Sweeping(ns, j, t, log, due0, due, now, earlier)
    requires InUsecs(due[t]) <= InUsecs(now) && Normal(due[t]) && Normal(now)
    requires HasFired(ns, t, due[t], m, due, due') && t.periodic && t.usecs > 0 && Fits(now, t.usecs) && AllNormal(m)
    requires Removed(ns, t) == Without(ns, j) && History(log + [Firing(t, due[t])], due0, now)
    ensures j' == if Position(Removed(ns, t), t.time) == j then j + 1 else j
    ensures var next := if j + 1 < |ns| then ns[j + 1] else null;
      Sweeping(m, j', next, log + [Firing(t, due[t])], due0, due', now, earlier)
  {
    hide Removed, Without, With, Position, Queue, Passed, Accounts, UpTo, History, Count, InUsecs, AddUsecs, Owed,
         Distinct, Fits;
    InQueue(ns, j, due);
    var f, rest := Firing(t, due[t]), Removed(ns, t);
    var p := Position(rest, t.time);
    LaterOwesLess(due[t], now, t.usecs);
    RestAround(ns, j, rest, t, p, due');
    PeriodicFired(ns, j, log, f, due0, due, due', rest, p, m, now, earlier);
    j' := if p == j then j + 1 else j;
  }

  /** The neighbours of t's new place, by what the map says. */
  lemma RestAround(ns: seq<Timer>, j: nat, rest: seq<Timer>, t: Timer, p: nat, due': map<Timer, Time>)
    requires Distinct(ns) && j < |ns| && t == ns[j] && rest == Without(ns, j) && p == Position(rest, t.time)
    requires AllNormal(Inserted(rest, t)) && forall x :: x in ns ==> x in due' && due'[x] == x.time
    ensures forall x :: x in rest ==> x in ns && x != t
    ensures p > 0 ==> rest[p - 1] in due' && InUsecs(due'[rest[p - 1]]) <= InUsecs(due'[t])
    ensures p < |rest| ==> rest[p] in due' && InUsecs(due'[t]) < InUsecs(due'[rest[p]])
  {
    WithoutMembers(ns, j, rest);
    WithMembers(rest, p, t, Inserted(rest, t));
    hide Without, With, InUsecs;
    if p > 0 {
      assert rest[p - 1] in rest && Compare(t.time, rest[p - 1].time) >= 0;
    }
    if p < |rest| {
      assert rest[p] in rest;
    }
  }

  lemma InQueue(ns: seq<Timer>, j: nat, due: map<Timer, Time>)
    requires Queue(ns, due) && j < |ns|
    ensures ns[j] in due && Distinct(ns)
  {
  }

  lemma StepOneShot(ns: seq<Timer>, j: nat, t: Timer, log: seq<Firing>, due0: map<Timer, Time>, due: map<Timer, Time>,
                    now: Time, m: seq<Timer>, due': map<Timer, Time>, earlier: set<Timer>)
    returns (j': nat)
    requires Sweeping(ns, j, t, log, due0, due, now, earlier)
    requires HasFired(ns, t, due[t], m, due, due') && !t.periodic
    requires Removed(ns, t) == Without(ns, j) && History(log + [Firing(t, due[t])], due0, now)
    ensures j' == j
    ensures var next := if j + 1 < |ns| then ns[j + 1] else null;
      Sweeping(m, j', next, log + [Firing(t, due[t])], due0, due', now, earlier)
  {
    InQueue(ns, j, due);
    WithoutMembers(ns, j, m);
    hide Without, Queue, Passed, Accounts, UpTo, History, Count, InUsecs;
    OneShotFired(ns, j, log, Firing(t, due[t]), due0, due, m, now, earlier);
    j' := j;
    SameQueue(m, due, due');
    SamePassed(m, j, log + [Firing(t, due[t])], due, due', now, earlier);
    SameAccounts(m, j, log + [Firing(t, due[t])], due0, due, due');
    OneShotNext(ns, j, m);
  }

  lemma SamePassed(ns: seq<Timer>, j: nat, log: seq<Firing>, due: map<Timer, Time>, due': map<Timer, Time>, now: Time,
                   earlier: set<Timer>)
    requires Passed(ns, j, log, due, now, earlier) && forall x :: x in ns ==> x in due' && x in due && due'[x] == due[x]
    ensures Passed(ns, j, log, due', now, earlier)
  {
    hide Count, InUsecs;
  }

  lemma SameAccounts(ns: seq<Timer>, j: nat, log: seq<Firing>, due0: map<Timer, Time>, due: map<Timer, Time>,
                     due': map<Timer, Time>)
    requires Accounts(ns, log, due0, due) && UpTo(log, ns, j, due)
    requires forall x :: x in ns ==> x in due' && x in due && due'[x] == due[x]
    ensures Accounts(ns, log, due0, due') && UpTo(log, ns, j, due')
  {
    hide Count, InUsecs;
  }

  lemma OneShotNext(ns: seq<Timer>, j: nat, m: seq<Timer>)
    requires j < |ns| && m == Without(ns, j)
    ensures if j + 1 < |ns| then j < |m| && m[j] == ns[j + 1] else j == |m|
  {
  }

  lemma {:induction false} SweepStarts(head: Timer?, ns: seq<Timer>, due: map<Timer, Time>, now: Time)
    requires Links(head, ns) && Sorted(ns) && AllNormal(ns) && due == Dues(ns)
    ensures Sweeping(ns, 0, head, [], due, due, now, {})
  {
    hide InUsecs;
    forall a, b | 0 <= a < b < |ns| ensures InUsecs(due[ns[a]]) <= InUsecs(due[ns[b]]) {
      assert ns[a] in ns && ns[b] in ns && Compare(ns[a].time, ns[b].time) <= 0;
    }
  }

  /** A timer that fired has a first firing, and that was when it was first due. */
  lemma {:induction false} FirstFiring(log: seq<Firing>, x: Timer, due0: map<Timer, Time>, now: Time)
    requires History(log, due0, now) && Count(log, x) > 0
    ensures x in due0 && InUsecs(due0[x]) <= InUsecs(now)
  {
    hide InUsecs, History;
    var n := |log| - 1;
    if Count(log[..n], x) > 0 {
      HistoryShrinks(log, due0, now);
      FirstFiring(log[..n], x, due0, now);
    } else {
      LastFiring(log, due0, now);
      assert log[n].timer == x;
    }
  }

  lemma LastFiring(log: seq<Firing>, due0: map<Timer, Time>, now: Time)
    requires History(log, due0, now) && log != []
    ensures var f := log[|log| - 1];
      && f.timer in due0 && InUsecs(f.due) <= InUsecs(now)
      && InUsecs(f.due) == InUsecs(due0[f.timer]) + Count(log[..|log| - 1], f.timer) * f.timer.usecs
  {
    hide InUsecs, Count;
  }

  lemma HistoryShrinks(log: seq<Firing>, due0: map<Timer, Time>, now: Time)
    requires History(log, due0, now) && log != []
    ensures History(log[..|log| - 1], due0, now)
  {
    hide InUsecs, Count;
    var m := log[..|log| - 1];
    assert forall i :: 0 <= i < |m| ==> m[..i] == log[..i];
  }

  /** What a sweep at now leaves of the list start, whose timers were due when due0 says: every
      timer due at the start has fired, the one-shot ones once and are off the list; what is still
      due is periodic and has fired; and each time has moved on by one period per firing. */
  ghost predicate Swept(start: seq<Timer>, due0: map<Timer, Time>, ns: seq<Timer>, log: seq<Firing>, now: Time,
                        earlier: set<Timer>)
    reads ns`time, ns`usecs, ns`periodic, start`periodic, due0.Keys`usecs
  {
    && History(log, due0, now)
    && (forall x :: x in start && x in due0 && InUsecs(due0[x]) <= InUsecs(now) ==> x in earlier || Count(log, x) > 0)
    && (forall x :: x in start && x in due0 && !x.periodic ==>
          && (x in ns <==> InUsecs(due0[x]) > InUsecs(now))
          && Count(log, x) == if InUsecs(due0[x]) > InUsecs(now) then 0 else 1)
    && (forall x :: x in start && x.periodic ==> x in ns)
    && (forall x :: x in ns ==> x in due0 && InUsecs(x.time) == InUsecs(due0[x]) + Count(log, x) * x.usecs)
    && (forall x :: x in ns && InUsecs(x.time) <= InUsecs(now) ==> x.periodic && (x in earlier || Count(log, x) > 0))
  }

  /** What is due when the sweep stops lies in front of where it stopped. */
  lemma LateHasFired(ns: seq<Timer>, j: nat, log: seq<Firing>, due: map<Timer, Time>, now: Time, x: Timer,
                     earlier: set<Timer>)
    requires Queue(ns, due) && Passed(ns, j, log, due, now, earlier)
    requires j < |ns| ==> ns[j] in due && InUsecs(due[ns[j]]) > InUsecs(now)
    requires x in ns && x in due && InUsecs(due[x]) <= InUsecs(now)
    ensures x.periodic && (x in earlier || Count(log, x) > 0)
  {
    hide InUsecs, Count;
    var k :| 0 <= k < |ns| && ns[k] == x;
    assert k < j;
  }

  lemma OneSwept(ns: seq<Timer>, j: nat, log: seq<Firing>, due0: map<Timer, Time>, due: map<Timer, Time>, now: Time,
                 x: Timer, earlier: set<Timer>)
    requires Queue(ns, due) && Passed(ns, j, log, due, now, earlier) && Accounts(ns, log, due0, due)
    requires History(log, due0, now)
    requires (j < |ns| ==> ns[j] in due && InUsecs(due[ns[j]]) > InUsecs(now)) && x in due0
    ensures InUsecs(due0[x]) <= InUsecs(now) ==> x in earlier || Count(log, x) > 0
    ensures !x.periodic ==>
      && (x in ns <==> InUsecs(due0[x]) > InUsecs(now))
      && Count(log, x) == if InUsecs(due0[x]) > InUsecs(now) then 0 else 1
    ensures x.periodic ==> x in ns
  {
    hide InUsecs, Count, Queue, Passed, History;
    if x !in ns {
      FirstFiring(log, x, due0, now);
    } else if InUsecs(due[x]) <= InUsecs(now) {
      LateHasFired(ns, j, log, due, now, x, earlier);
    }
  }

  lemma SweepEnds(start: seq<Timer>, ns: seq<Timer>, j: nat, t: Timer?, log: seq<Firing>, due0: map<Timer, Time>,
                  due: map<Timer, Time>, now: Time, earlier: set<Timer>)
    requires Sweeping(ns, j, t, log, due0, due, now, earlier) && AllNormal(ns) && Normal(now)
    requires t != null ==> Compare(t.time, now) > 0
    requires forall x :: x in start ==> x in due0
    requires forall x :: x in ns ==> x in due && due[x] == x.time
    ensures Swept(start, due0, ns, log, now, earlier)
  {
    hide InUsecs, Count, History, Queue, Passed;
    assert j < |ns| ==> ns[j] in ns && ns[j] in due && InUsecs(due[ns[j]]) > InUsecs(now);
    forall x | x in start
      ensures InUsecs(due0[x]) <= InUsecs(now) ==> x in earlier || Count(log, x) > 0
      ensures !x.periodic ==>
        && (x in ns <==> InUsecs(due0[x]) > InUsecs(now))
        && Count(log, x) == if InUsecs(due0[x]) > InUsecs(now) then 0 else 1
      ensures x.periodic ==> x in ns
    {
      OneSwept(ns, j, log, due0, due, now, x, earlier);
    }
    forall x | x in ns && InUsecs(x.time) <= InUsecs(now) ensures x.periodic && (x in earlier || Count(log, x) > 0) {
      LateHasFired(ns, j, log, due, now, x, earlier);
    }
  }

  // ---------- a sweep in which an omit timer fires ----------

  /** Where the sweep stands when it reaches the omit timer: the list and its times, the omit timer's
      position, and what has fired before. */
  datatype Moment = Moment(ns: seq<Timer>, j: nat, due: map<Timer, Time>, log: seq<Firing>)

  ghost predicate Reached(m: Moment, o: Timer, due0: map<Timer, Time>, now: Time)
    reads m.ns`usecs, m.ns`periodic, due0.Keys`usecs, due0.Keys`periodic
  {
    && Sweeping(m.ns, m.j, o, m.log, due0, m.due, now, {})
    && o in m.ns && o in m.due && InUsecs(m.due[o]) <= InUsecs(now)
  }

  /** A sweep that has not come to an omit timer yet, as its list at the start foretells it: what the
      list is, where the sweep is on it, when the timers are due, and which have fired. */
  datatype Place = Place(ns: seq<Timer>, j: nat, due: map<Timer, Time>, fired: set<Timer>)

  /** Behind every timer due no later. */
  ghost function Slot(ns: seq<Timer>, due: map<Timer, Time>, time: Time): (k: nat)
    ensures k <= |ns|
  {
    if ns == [] || ns[0] !in due || Compare(time, due[ns[0]]) < 0 then 0 else 1 + Slot(ns[1..], due, time)
  }

  /** The timer there fires; the sweep goes on at the one behind it. */
  ghost function Onward(p: Place, start: seq<Timer>): (q: Place)
    requires p.j < |p.ns| && forall x :: x in p.ns ==> x in start
    reads start`periodic, start`usecs
    ensures forall x :: x in q.ns ==> x in start
  {
    var t, rest := p.ns[p.j], Without(p.ns, p.j);
    assert t in p.ns;
    if t.periodic && t in p.due then
      var time := AddUsecs(p.due[t], t.usecs);
      var k := Slot(rest, p.due, time);
      Place(With(rest, k, t), if k == p.j then p.j + 1 else p.j, p.due[t := time], p.fired + {t})
    else Place(rest, p.j, p.due, p.fired + {t})
  }

  /** Where a sweep of the list start is when n timers have fired. */
  ghost function Ahead(start: seq<Timer>, due0: map<Timer, Time>, n: nat): (p: Place)
    reads start`periodic, start`usecs
    ensures forall x :: x in p.ns ==> x in start
  {
    if n == 0 then Place(start, 0, due0, {})
    else
      var p := Ahead(start, due0, n - 1);
      if p.j < |p.ns| then Onward(p, start) else p
  }

  ghost predicate IsAt(p: Place, o: Timer) {
    p.j < |p.ns| && p.ns[p.j] == o
  }

  /** The sweep is where it was foretold to be. */
  ghost predicate Matches(p: Place, m: Moment, start: seq<Timer>) {
    && p.ns == m.ns && p.j == m.j && (forall x :: x in m.ns ==> x in p.due && x in m.due && p.due[x] == m.due[x])
    && (forall x :: x in start ==> (x in p.fired <==> Count(m.log, x) > 0))
  }

  ghost predicate Foreseen(start: seq<Timer>, due0: map<Timer, Time>, o: Timer, m: Moment)
    reads start`periodic, start`usecs
  {
    && o in start && Distinct(start) && Matches(Ahead(start, due0, |m.log|), m, start)
    && forall i :: 0 <= i < |m.log| ==> !IsAt(Ahead(start, due0, i), o)
  }

  /** The timer right behind the omit timer is one it restarts. */
  ghost predicate NextHeld(m: Moment, restarts: set<Timer>) {
    m.j + 1 < |m.ns| && m.ns[m.j + 1] in restarts
  }

  /** And behind it is one that is due, is not restarted, and has not fired yet. */
  ghost predicate HeldUp(m: Moment, restarts: set<Timer>, now: Time) {
    && NextHeld(m, restarts)
    && exists k :: m.j < k < |m.ns| && m.ns[k] in m.due
         && m.ns[k] !in restarts && Count(m.log, m.ns[k]) == 0 && InUsecs(m.due[m.ns[k]]) <= InUsecs(now)
  }

  /** Every timer due at the start that is not restarted has fired. */
  ghost predicate AllFired(start: seq<Timer>, due0: map<Timer, Time>, restarts: set<Timer>, log: seq<Firing>, now: Time)
    {
    forall x :: x in start && x in due0 && x !in restarts && InUsecs(due0[x]) <= InUsecs(now) ==> Count(log, x) > 0
  }

  /** What a sweep does in which the only omit timer, o, is due: every due timer that o does not restart
      fires, if and only if none is held up behind one that it does. */
  ghost predicate OmitSwept(start: seq<Timer>, due0: map<Timer, Time>, o: Timer, restarts: set<Timer>, m: Moment,
                            log: seq<Firing>, now: Time)
    reads m.ns`usecs, m.ns`periodic, due0.Keys`usecs, due0.Keys`periodic, start`usecs, start`periodic
  {
    && o in start && Reached(m, o, due0, now) && m.log + [Firing(o, m.due[o])] <= log
    && Foreseen(start, due0, o, m)
    && (AllFired(start, due0, restarts, log, now) <==> !HeldUp(m, restarts, now))
  }

  /** The account of a sweep: when the timers were due at its start, the only omit timer there is and
      what it restarts, the moment it fired; and, since that moment or the start, when the timers were
      due, where the sweep is, what has fired, and what had fired before. */
  datatype Sweep = Sweep(start0: map<Timer, Time>, omit: Option<Timer>, restarts: set<Timer>, moment: Option<Moment>,
                         due0: map<Timer, Time>, j: nat, log: seq<Firing>, earlier: set<Timer>)
  {
    predicate SameTest(w: Sweep) {
      start0 == w.start0 && omit == w.omit && restarts == w.restarts
    }

    /** The timers listed when the omit timer fired. */
    function Listed(): seq<Timer> {
      if moment.Some? then moment.value.ns else []
    }

    ghost predicate QuietFor(start: seq<Timer>, now: Time)
      reads start`proc, start`periodic
    {
      forall t :: t in start && t.proc == EndOmit ==> !t.periodic && t in start0 && InUsecs(start0[t]) > InUsecs(now)
    }

    /** The sweeps that are followed: with one omit timer, or with none that is due. */
    ghost predicate Tracked(start: seq<Timer>, now: Time)
      reads start`proc, start`periodic
    {
      if omit.Some? then OnlyOmit(start, omit.value) && !omit.value.periodic else QuietFor(start, now)
    }

    ghost predicate At(start: seq<Timer>, ns: seq<Timer>, t: Timer?, all: seq<Firing>, due: map<Timer, Time>, now: Time)
      reads ns`usecs, ns`periodic, due0.Keys`usecs, due0.Keys`periodic
      reads start`usecs, start`periodic, start0.Keys`usecs, start0.Keys`periodic
      reads Listed()`usecs, Listed()`periodic
    {
      if moment == None then AtFirst(start, ns, t, all, due, now) else AtLast(start, ns, t, all, due, now)
    }

    /** Before an omit timer has fired. */
    ghost predicate AtFirst(start: seq<Timer>, ns: seq<Timer>, t: Timer?, all: seq<Firing>, due: map<Timer, Time>,
                            now: Time)
      reads ns`usecs, ns`periodic, due0.Keys`usecs, due0.Keys`periodic, start`usecs, start`periodic
    {
      && due0 == start0 && earlier == {} && log == all && Sweeping(ns, j, t, log, due0, due, now, {})
      && (omit.Some? ==> omit.value in ns && Foreseen(start, start0, omit.value, Moment(ns, j, due, log)))
    }

    /** And after it: the sweep goes on, or ends at once because the next timer is no longer due. */
    ghost predicate AtLast(start: seq<Timer>, ns: seq<Timer>, t: Timer?, all: seq<Firing>, due: map<Timer, Time>,
                           now: Time)
      requires moment.Some?
      reads ns`usecs, ns`periodic, due0.Keys`usecs, due0.Keys`periodic
      reads start`usecs, start`periodic, start0.Keys`usecs, start0.Keys`periodic
      reads moment.value.ns`usecs, moment.value.ns`periodic
    {
      && omit.Some?
      && var m, o := moment.value, omit.value;
      && o in start && Reached(m, o, start0, now) && Foreseen(start, start0, o, m)
      && m.log + [Firing(o, m.due[o])] + log == all
      && if NextHeld(m, restarts)
         then log == [] && t != null && t in due && InUsecs(due[t]) > InUsecs(now)
         else Goes(m, o) && Sweeping(ns, j, t, log, due0, due, now, earlier)
    }

    /** The account since the moment goes on from the one before. */
    ghost predicate Goes(m: Moment, o: Timer) {
      && due0.Keys == Members(m.ns) - {o}
      && (forall x :: x in m.ns && x != o && x !in restarts ==> x in m.due && due0[x] == m.due[x])
      && (forall x :: x in earlier ==> Count(m.log, x) > 0)
    }
  }

  lemma StillTracked(start: seq<Timer>, w: Sweep, w': Sweep, now: Time)
    requires w'.SameTest(w) && w.Tracked(start, now)
    ensures w'.Tracked(start, now)
  {
  }

  lemma TrackedStart(head: Timer?, ns: seq<Timer>, w: Sweep, now: Time)
    requires Links(head, ns) && Sorted(ns) && AllNormal(ns) && Bound(ns) && Normal(now)
    requires w == Sweep(Dues(ns), w.omit, w.restarts, None, Dues(ns), 0, [], {})
    requires w.omit.Some? ==> OnlyOmit(ns, w.omit.value)
    ensures w.omit.Some? ==> w.omit.value in w.start0 && w.Tracked(ns, now)
    ensures w.omit.Some? && Compare(w.omit.value.time, now) <= 0 ==> InUsecs(w.start0[w.omit.value]) <= InUsecs(now)
    ensures Quiet(ns, now) ==> w.QuietFor(ns, now) && w.Tracked(ns, now)
    ensures w.At(ns, ns, head, [], Dues(ns), now)
  {
    hide InUsecs;
    SweepStarts(head, ns, Dues(ns), now);
    if w.omit.Some? {
      var o := w.omit.value;
      assert o in ns && w.start0[o] == o.time;
      LinksDistinct(head, ns);
    }
  }

  /** Where the sweep is, a timer that is due is followed by the next one of the list. */
  lemma FollowedBy(head: Timer?, start: seq<Timer>, ns: seq<Timer>, t: Timer, w: Sweep, log: seq<Firing>,
                   due: map<Timer, Time>, now: Time)
    requires Links(head, ns) && w.At(start, ns, t, log, due, now)
    requires t in due && InUsecs(due[t]) <= InUsecs(now)
    ensures Sweeping(ns, w.j, t, w.log, w.due0, due, now, w.earlier)
    ensures w.j < |ns| && ns[w.j] == t && t.next == if w.j + 1 < |ns| then ns[w.j + 1] else null
  {
    hide InUsecs, Reached, Sweeping, Foreseen;
    SweepAt(head, ns, w.j, t, w.log, w.due0, due, now, w.earlier);
  }

  /** After the omit timer o, whose callback restarts the timers in moved, the list is m: the others keep
      their times and their order, and those restarted are not due. */
  ghost predicate HasRestarted(ns: seq<Timer>, o: Timer, m: seq<Timer>, moved: set<Timer>, due: map<Timer, Time>,
                               due': map<Timer, Time>, now: Time)
    reads ns`time
  {
    && Others(m, moved + {o}) == Others(ns, moved + {o})
    && Members(m) == Members(ns) - {o}
    && (forall x :: x in m ==> x in ns && x != o && x in due')
    && (forall x :: x in ns ==> x in due && x in due' && due'[x] == x.time)
    && (forall x :: x in ns && x !in moved && x != o ==> due'[x] == due[x])
    && (forall x :: x in ns && x in moved && x != o ==> InUsecs(due'[x]) > InUsecs(now))
  }

  lemma SweepsAt(ns: seq<Timer>, j: nat, t: Timer, log: seq<Firing>, due0: map<Timer, Time>, due: map<Timer, Time>,
                 now: Time, earlier: set<Timer>)
    requires Sweeping(ns, j, t, log, due0, due, now, earlier) && j < |ns|
    ensures ns[j] == t && t in due && t in due0 && Distinct(ns) && (j + 1 < |ns| ==> ns[j + 1] != t)
  {
  }

  lemma SweepsAccount(ns: seq<Timer>, j: nat, t: Timer?, log: seq<Firing>, due0: map<Timer, Time>,
                      due: map<Timer, Time>, now: Time, earlier: set<Timer>)
    requires Sweeping(ns, j, t, log, due0, due, now, earlier)
    ensures Accounts(ns, log, due0, due)
  {
  }

  lemma ReachedAt(m: Moment, o: Timer, due0: map<Timer, Time>, now: Time)
    requires Reached(m, o, due0, now)
    ensures o in m.due && o in due0 && Distinct(m.ns)
  {
  }

  /** A firing that restarts nothing. */
  lemma PlainStep(start: seq<Timer>, ns: seq<Timer>, t: Timer, next: Timer?, w: Sweep, log: seq<Firing>,
                  due: map<Timer, Time>, now: Time, m: seq<Timer>, due': map<Timer, Time>)
    returns (w': Sweep)
    requires w.Tracked(start, now) && w.At(start, ns, t, log, due, now) && t.proc != EndOmit
    requires Sweeping(ns, w.j, t, w.log, w.due0, due, now, w.earlier) && w.j < |ns|
    requires next == if w.j + 1 < |ns| then ns[w.j + 1] else null
    requires InUsecs(due[t]) <= InUsecs(now) && Normal(due[t]) && Normal(now)
    requires HasFired(ns, t, due[t], m, due, due')
    requires AllNormal(m) && (t.periodic ==> t.usecs > 0 && Fits(now, t.usecs))
    ensures w'.SameTest(w) && w'.At(start, m, next, log + [Firing(t, due[t])], due', now)
  {
    hide InUsecs, HasFired, Sweeping, Reached, Foreseen, Sweep.Tracked, Normal, Fits, AllNormal;
    SweepsAt(ns, w.j, t, w.log, w.due0, due, now, w.earlier);
    var f := Firing(t, due[t]);
    var j' := SweepStep(ns, w.j, t, w.log, w.due0, due, now, m, due', w.earlier);
    w' := w.(j := j', log := w.log + [f]);
    if w.moment == None {
      if w.omit.Some? {
        SweepsAccount(m, j', next, w'.log, w.due0, due', now, w.earlier);
        OmitStays(start, ns, t, w, log, due, now, m, due');
        ForeseenStep(start, ns, t, w, log, due, now, m, due', j');
      }
    } else {
      var r := w.moment.value;
      assert w.omit.value in r.due by {
        ReachedAt(r, w.omit.value, w.start0, now);
      }
      assert r.log + [Firing(w.omit.value, r.due[w.omit.value])] + w'.log == log + [f];
    }
  }

  lemma OmitStays(start: seq<Timer>, ns: seq<Timer>, t: Timer, w: Sweep, log: seq<Firing>, due: map<Timer, Time>,
                  now: Time, m: seq<Timer>, due': map<Timer, Time>)
    requires w.Tracked(start, now) && w.moment == None && w.At(start, ns, t, log, due, now) && w.omit.Some?
    requires t.proc != EndOmit
    requires t in due && Accounts(m, w.log + [Firing(t, due[t])], w.due0, due')
    ensures w.omit.value in m
  {
    var o, f := w.omit.value, Firing(t, due[t]);
    hide InUsecs;
    CountAppend(w.log, f, o);
    assert o in ns && Count(w.log, o) == 0 && o in w.due0;
  }

  lemma ForeseenStep(start: seq<Timer>, ns: seq<Timer>, t: Timer, w: Sweep, log: seq<Firing>, due: map<Timer, Time>,
                     now: Time, m: seq<Timer>, due': map<Timer, Time>, j': nat)
    requires w.Tracked(start, now) && w.omit.Some? && w.moment == None && w.At(start, ns, t, log, due, now)
    requires Sweeping(ns, w.j, t, w.log, w.due0, due, now, w.earlier) && w.j < |ns| && t in due && t.proc != EndOmit
    requires HasFired(ns, t, due[t], m, due, due') && j' == NextAt(ns, w.j, t)
    ensures Foreseen(start, w.start0, w.omit.value, Moment(m, j', due', log + [Firing(t, due[t])]))
  {
    hide InUsecs, Count, Removed, Inserted, Matches, Ahead, Passed, Accounts, UpTo, History, Reached, HasFired;
    var o, n, f := w.omit.value, |log|, Firing(t, due[t]);
    var p, q := Ahead(start, w.start0, n), Ahead(start, w.start0, n + 1);
    InQueue(ns, w.j, due);
    FirstIndex(ns, w.j, due);
    AtTimer(p, Moment(ns, w.j, due, log), start, t);
    MatchesOn(p, ns, t, Moment(ns, w.j, due, log), m, due', j', start);
    AheadOn(start, w.start0, n);
    assert t != o;
  }

  lemma AheadOn(start: seq<Timer>, due0: map<Timer, Time>, n: nat)
    ensures var p := Ahead(start, due0, n); Ahead(start, due0, n + 1) == if p.j < |p.ns| then Onward(p, start) else p
  {
    hide Onward;
  }

  lemma AtTimer(p: Place, m: Moment, start: seq<Timer>, t: Timer)
    requires Matches(p, m, start) && m.j < |m.ns| && m.ns[m.j] == t
    ensures p.ns == m.ns && IsAt(p, t) && forall o :: o != t ==> !IsAt(p, o)
  {
  }

  /** By what the map says, a timer goes where it goes by the timers' own times. */
  lemma {:induction false} SlotIsPosition(ns: seq<Timer>, due: map<Timer, Time>, time: Time)
    requires forall x :: x in ns ==> x in due && due[x] == x.time
    ensures Slot(ns, due, time) == Position(ns, time)
  {
    hide Compare;
    if ns != [] {
      assert ns[0] in ns;
      SlotIsPosition(ns[1..], due, time);
    }
  }

  lemma MatchesOn(p: Place, ns: seq<Timer>, t: Timer, was: Moment, m: seq<Timer>, due': map<Timer, Time>, j': nat,
                  start: seq<Timer>)
    requires Matches(p, was, start) && was.ns == ns && was.j < |ns| && ns[was.j] == t && Distinct(ns) && t in was.due
    requires HasFired(ns, t, was.due[t], m, was.due, due') && j' == NextAt(ns, was.j, t)
    requires Removed(ns, t) == Without(ns, was.j) && forall x :: x in ns ==> x in start
    ensures Matches(Onward(p, start), Moment(m, j', due', was.log + [Firing(t, was.due[t])]), start)
  {
    hide Count, Removed, Without, With, AddUsecs, Position, Slot, Distinct;
    var rest := Without(ns, was.j);
    WithoutMembers(ns, was.j, rest);
    CountsAfter(was.log, Firing(t, was.due[t]));
    assert t in ns && p.due[t] == was.due[t];
    if t.periodic {
      SlotIsPosition(rest, p.due, t.time);
      WithMembers(rest, Position(rest, t.time), t, m);
    }
  }

  /** The omit timer fires. */
  lemma OmitStep(start: seq<Timer>, ns: seq<Timer>, t: Timer, next: Timer?, w: Sweep, log: seq<Firing>,
                 due: map<Timer, Time>, now: Time, m: seq<Timer>, due': map<Timer, Time>)
    returns (w': Sweep)
    requires w.Tracked(start, now) && w.At(start, ns, t, log, due, now) && w.moment == None && w.omit == Some(t)
    requires Sweeping(ns, w.j, t, w.log, w.due0, due, now, w.earlier) && w.j < |ns|
    requires next == if w.j + 1 < |ns| then ns[w.j + 1] else null
    requires InUsecs(due[t]) <= InUsecs(now)
    requires HasRestarted(ns, t, m, w.restarts, due, due', now) && Distinct(m) && Sorted(m) && AllNormal(m)
    ensures w'.SameTest(w) && w'.At(start, m, next, log + [Firing(t, due[t])], due', now)
  {
    hide InUsecs, Sweeping, Reached, Foreseen, Others, Distinct, Sorted, AllNormal, Count, Sweep.Tracked;
    SweepsAt(ns, w.j, t, w.log, w.due0, due, now, w.earlier);
    var r := Moment(ns, w.j, due, log);
    var due1 := map x | x in m :: due'[x];
    var fired := set x | x in ns && Count(log, x) > 0;
    w' := Sweep(w.start0, w.omit, w.restarts, Some(r), due1, 0, [], fired);
    OmitReached(start, ns, t, w, log, due, now);
    assert log + [Firing(t, due[t])] + [] == log + [Firing(t, due[t])];
    if !NextHeld(r, w.restarts) {
      var j' := Resumed(ns, w.j, t, m, w.restarts, log, w.due0, due, due1, due', now, fired);
      w' := w'.(j := j');
    }
  }

  lemma OmitReached(start: seq<Timer>, ns: seq<Timer>, t: Timer, w: Sweep, log: seq<Firing>, due: map<Timer, Time>,
                    now: Time)
    requires w.Tracked(start, now) && w.At(start, ns, t, log, due, now) && w.moment == None && w.omit == Some(t)
    requires w.j < |ns| && t in due && InUsecs(due[t]) <= InUsecs(now)
    ensures var r := Moment(ns, w.j, due, log);
      t in start && Reached(r, t, w.start0, now) && Foreseen(start, w.start0, t, r)
  {
    hide InUsecs, Matches, Ahead, Sweeping;
    SweepsAt(ns, w.j, t, w.log, w.due0, due, now, w.earlier);
  }

  /** The sweep goes on at the timer that was next: what is now in front of it has fired or is not due. */
  lemma Resumed(ns: seq<Timer>, j: nat, o: Timer, m: seq<Timer>, restarts: set<Timer>, log: seq<Firing>,
                due0: map<Timer, Time>, due: map<Timer, Time>, due1: map<Timer, Time>, due': map<Timer, Time>,
                now: Time, fired: set<Timer>)
    returns (j': nat)
    requires Sweeping(ns, j, o, log, due0, due, now, {}) && j < |ns|
    requires j + 1 < |ns| ==> ns[j + 1] !in restarts
    requires HasRestarted(ns, o, m, restarts, due, due', now) && Distinct(m) && Sorted(m) && AllNormal(m)
    requires due1 == (map x | x in m :: due'[x]) && fired == set x | x in ns && Count(log, x) > 0
    ensures Sweeping(m, j', if j + 1 < |ns| then ns[j + 1] else null, [], due1, due', now, fired)
  {
    hide InUsecs, Count, Accounts, UpTo, History, Passed, Others;
    assert Distinct(ns) && forall x :: x in m ==> x in due' && due'[x] == x.time;
    j' := SameFront(ns, j, m, restarts + {o});
    ResumedPassed(ns, j, o, m, restarts, log, due, due', now, fired, j');
    ResumedQueue(m, due');
    ResumedAccounts(m, due1, due', now);
    hide HasRestarted;
  }

  lemma ResumedPassed(ns: seq<Timer>, j: nat, o: Timer, m: seq<Timer>, restarts: set<Timer>, log: seq<Firing>,
                      due: map<Timer, Time>, due': map<Timer, Time>, now: Time, fired: set<Timer>, j': nat)
    requires Passed(ns, j, log, due, now, {}) && HasRestarted(ns, o, m, restarts, due, due', now)
    requires fired == set x | x in ns && Count(log, x) > 0
    requires j' <= |m| && forall k :: 0 <= k < j' ==> m[k] in restarts + {o} || m[k] in ns[..j]
    ensures Passed(m, j', [], due', now, fired)
  {
    hide InUsecs, Count, Others;
    forall k | 0 <= k < j'
      ensures (m[k].periodic && m[k] in fired) || (m[k] in due' && InUsecs(due'[m[k]]) > InUsecs(now))
    {
      assert m[k] in m;
      if m[k] !in restarts {
        var i :| 0 <= i < j && ns[i] == m[k];
      }
    }
  }

  lemma ResumedQueue(m: seq<Timer>, due': map<Timer, Time>)
    requires Distinct(m) && Sorted(m) && AllNormal(m) && forall x :: x in m ==> x in due' && due'[x] == x.time
    ensures Queue(m, due')
  {
    hide InUsecs;
    forall a, b | 0 <= a < b < |m| ensures InUsecs(due'[m[a]]) <= InUsecs(due'[m[b]]) {
      assert m[a] in m && m[b] in m && Compare(m[a].time, m[b].time) <= 0;
    }
  }

  lemma ResumedAccounts(m: seq<Timer>, due1: map<Timer, Time>, due': map<Timer, Time>, now: Time)
    requires (forall x :: x in m ==> x in due') && due1 == map x | x in m :: due'[x]
    ensures Accounts(m, [], due1, due') && History([], due1, now) && forall j' :: UpTo([], m, j', due')
  {
    hide InUsecs;
  }

  lemma TrackedStep(start: seq<Timer>, ns: seq<Timer>, t: Timer, next: Timer?, w: Sweep, log: seq<Firing>,
                    due: map<Timer, Time>, now: Time, m: seq<Timer>, due': map<Timer, Time>)
    returns (w': Sweep)
    requires w.Tracked(start, now) && w.At(start, ns, t, log, due, now) && t in start
    requires Sweeping(ns, w.j, t, w.log, w.due0, due, now, w.earlier) && w.j < |ns|
    requires next == if w.j + 1 < |ns| then ns[w.j + 1] else null
    requires InUsecs(due[t]) <= InUsecs(now) && Normal(due[t]) && Normal(now)
    requires t.proc != EndOmit ==> HasFired(ns, t, due[t], m, due, due')
    requires t.proc == EndOmit && w.omit == Some(t) ==> HasRestarted(ns, t, m, w.restarts, due, due', now)
    requires Distinct(m) && Sorted(m) && AllNormal(m) && (t.periodic ==> t.usecs > 0 && Fits(now, t.usecs))
    ensures w'.SameTest(w) && w'.At(start, m, next, log + [Firing(t, due[t])], due', now)
  {
    hide InUsecs, HasFired, HasRestarted;
    if t.proc != EndOmit {
      hide Sweeping, Sweep.At, Sweep.Tracked;
      w' := PlainStep(start, ns, t, next, w, log, due, now, m, due');
    } else {
      OmitDue(start, ns, t, w, log, due, now);
      hide Sweeping, Sweep.At, Sweep.Tracked;
      w' := OmitStep(start, ns, t, next, w, log, due, now, m, due');
    }
  }

  /** An omit timer that is due is the one that is followed, and fires once. */
  lemma OmitDue(start: seq<Timer>, ns: seq<Timer>, t: Timer, w: Sweep, log: seq<Firing>, due: map<Timer, Time>,
                now: Time)
    requires w.Tracked(start, now) && w.At(start, ns, t, log, due, now) && t in start && t.proc == EndOmit
    requires Sweeping(ns, w.j, t, w.log, w.due0, due, now, w.earlier) && w.j < |ns|
    requires InUsecs(due[t]) <= InUsecs(now)
    ensures w.moment == None && w.omit == Some(t)
  {
    hide InUsecs, Count, Reached, Foreseen;
    assert t in ns && t in w.due0;
  }

  lemma {:induction false} CountConcat(a: seq<Firing>, b: seq<Firing>, x: Timer)
    ensures Count(a + b, x) == Count(a, x) + Count(b, x)
    decreases |b|
  {
    if b == [] {
      assert a + b == a;
    } else {
      var n := |b| - 1;
      CountConcat(a, b[..n], x);
      CountAppend(a + b[..n], b[n], x);
      assert a + b == (a + b[..n]) + [b[n]];
    }
  }

  /** At the moment the omit timer fires, what is due and has not fired is behind it. */
  lemma UnfiredBehind(m: Moment, o: Timer, due0: map<Timer, Time>, now: Time, x: Timer)
    requires Reached(m, o, due0, now) && x in due0 && x != o && InUsecs(due0[x]) <= InUsecs(now) && Count(m.log, x) == 0
    ensures x in m.ns && x in m.due && InUsecs(m.due[x]) == InUsecs(due0[x])
    ensures exists k :: m.j < k < |m.ns| && m.ns[k] == x
  {
    hide InUsecs, History, UpTo;
    var k :| 0 <= k < |m.ns| && m.ns[k] == x;
  }

  /** Behind the omit timer, what has not fired is due when it was. */
  lemma BehindAsDue(m: Moment, o: Timer, due0: map<Timer, Time>, now: Time, k: nat)
    requires Reached(m, o, due0, now) && m.j < k < |m.ns| && Count(m.log, m.ns[k]) == 0
    ensures var x := m.ns[k]; x != o && x in m.due && x in due0 && InUsecs(m.due[x]) == InUsecs(due0[x])
  {
    hide InUsecs, History, UpTo, Passed;
    assert m.ns[k] in m.ns;
  }

  /** When the next timer is held, the sweep ends with the omit timer. */
  lemma {:induction false} HeldEnds(start: seq<Timer>, due0: map<Timer, Time>, o: Timer, restarts: set<Timer>,
                                    m: Moment, log: seq<Firing>, now: Time)
    requires Reached(m, o, due0, now) && log == m.log + [Firing(o, m.due[o])] && NextHeld(m, restarts)
    requires Members(start) == due0.Keys
    ensures AllFired(start, due0, restarts, log, now) <==> !HeldUp(m, restarts, now)
  {
    hide InUsecs, Reached;
    ReachedAt(m, o, due0, now);
    var f := Firing(o, m.due[o]);
    if HeldUp(m, restarts, now) {
      var k :| m.j < k < |m.ns| && m.ns[k] in m.due
        && m.ns[k] !in restarts && Count(m.log, m.ns[k]) == 0 && InUsecs(m.due[m.ns[k]]) <= InUsecs(now);
      BehindAsDue(m, o, due0, now, k);
      CountAppend(m.log, f, m.ns[k]);
      assert m.ns[k] in Members(start);
    } else {
      forall x | x in start && x in due0 && x !in restarts && InUsecs(due0[x]) <= InUsecs(now)
        ensures Count(log, x) > 0
      {
        CountAppend(m.log, f, x);
        if x != o && Count(m.log, x) == 0 {
          UnfiredBehind(m, o, due0, now, x);
        }
      }
    }
  }

  /** When it is not, the sweep goes on to the end. */
  lemma GoesOn(start: seq<Timer>, ns: seq<Timer>, t: Timer?, w: Sweep, m: Moment, o: Timer, log: seq<Firing>,
               due: map<Timer, Time>, now: Time)
    requires Reached(m, o, w.start0, now) && !NextHeld(m, w.restarts) && w.Goes(m, o)
    requires Sweeping(ns, w.j, t, w.log, w.due0, due, now, w.earlier) && m.log + [Firing(o, m.due[o])] + w.log == log
    requires t != null ==> t in due && InUsecs(due[t]) > InUsecs(now)
    ensures AllFired(start, w.start0, w.restarts, log, now)
  {
    hide InUsecs, Reached, Sweeping;
    ReachedAt(m, o, w.start0, now);
    var f := Firing(o, m.due[o]);
    forall x | x in start && x in w.start0 && x !in w.restarts && InUsecs(w.start0[x]) <= InUsecs(now)
      ensures Count(log, x) > 0
    {
      CountConcat(m.log + [f], w.log, x);
      CountAppend(m.log, f, x);
      if x != o && Count(m.log, x) == 0 {
        UnfiredBehind(m, o, w.start0, now, x);
        assert x in w.due0 && x !in w.earlier;
        SweptAt(ns, t, w, due, now, x);
      }
    }
  }

  lemma SweptAt(ns: seq<Timer>, t: Timer?, w: Sweep, due: map<Timer, Time>, now: Time, x: Timer)
    requires Sweeping(ns, w.j, t, w.log, w.due0, due, now, w.earlier)
    requires t != null ==> t in due && InUsecs(due[t]) > InUsecs(now)
    requires x in w.due0 && InUsecs(w.due0[x]) <= InUsecs(now)
    ensures x in w.earlier || Count(w.log, x) > 0
  {
    hide InUsecs, Count, Queue, Passed, History, Accounts;
    assert w.j < |ns| ==> ns[w.j] == t;
    assert w.j <= |ns| by {
      SweepsWithin(ns, w.j, t, w.log, w.due0, due, now, w.earlier);
    }
    OneSwept(ns, w.j, w.log, w.due0, due, now, x, w.earlier);
  }

  lemma SweepsWithin(ns: seq<Timer>, j: nat, t: Timer?, log: seq<Firing>, due0: map<Timer, Time>, due: map<Timer, Time>,
                     now: Time, earlier: set<Timer>)
    requires Sweeping(ns, j, t, log, due0, due, now, earlier)
    ensures j <= |ns|
  {
  }

  /** An omit timer that is due has fired. */
  lemma OmitFired(start: seq<Timer>, due0: map<Timer, Time>, ns: seq<Timer>, log: seq<Firing>, now: Time, o: Timer)
    requires Swept(start, due0, ns, log, now, {}) && o in start && o in due0 && !o.periodic
    requires InUsecs(due0[o]) <= InUsecs(now)
    ensures o !in ns
  {
    hide InUsecs, Count, History;
  }

  lemma OmitWasDue(m: Moment, o: Timer, due0: map<Timer, Time>, now: Time)
    requires Reached(m, o, due0, now) && !o.periodic
    ensures o in due0 && InUsecs(due0[o]) <= InUsecs(now)
  {
    hide InUsecs, Count, History, Queue, Passed;
  }

  lemma TrackedEnd(start: seq<Timer>, ns: seq<Timer>, t: Timer?, w0: Sweep, w: Sweep, log: seq<Firing>,
                   due: map<Timer, Time>, now: Time)
    requires w.SameTest(w0)
    requires w.Tracked(start, now) && w.At(start, ns, t, log, due, now) && AllNormal(ns) && Normal(now)
    requires t != null ==> t in due && due[t] == t.time && Compare(t.time, now) > 0 && InUsecs(due[t]) > InUsecs(now)
    requires Members(start) == w0.start0.Keys && forall x :: x in ns ==> x in due && due[x] == x.time
    ensures w0.QuietFor(start, now) ==> Swept(start, w0.start0, ns, log, now, {})
    ensures w0.omit.Some? && w0.omit.value in w0.start0 && InUsecs(w0.start0[w0.omit.value]) <= InUsecs(now) ==>
      w.moment.Some? && OmitSwept(start, w0.start0, w0.omit.value, w0.restarts, w.moment.value, log, now)
  {
    hide InUsecs, Sweeping, Reached, Foreseen, Swept, Compare, Normal, AllNormal, Sweep.Goes, HeldUp, AllFired;
    assert forall x :: x in start ==> x in Members(start);
    if w.moment == None {
      SweepEnds(start, ns, w.j, t, w.log, w.due0, due, now, {});
      if w.omit.Some? && InUsecs(w.start0[w.omit.value]) <= InUsecs(now) {
        OmitFired(start, w.start0, ns, log, now, w.omit.value);
      }
    } else {
      var m, o := w.moment.value, w.omit.value;
      OmitWasDue(m, o, w.start0, now);
      if NextHeld(m, w.restarts) {
        HeldEnds(start, w.start0, o, w.restarts, m, log, now);
      } else {
        GoesOn(start, ns, t, w, m, o, log, due, now);
        assert !HeldUp(m, w.restarts, now) by {
          NotHeldUp(m, w.restarts, now);
        }
      }
    }
  }

  /** The same of the heap as a sweep leaves it. */
  lemma SweepOver(start: seq<Timer>, ns: seq<Timer>, t: Timer?, w0: Sweep, w: Sweep, log: seq<Firing>, now: Time)
    requires w.SameTest(w0) && Members(ns) <= Members(start) && Members(start) == w0.start0.Keys
    requires w.Tracked(start, now) && w.At(start, ns, t, log, Dues(start), now) && AllNormal(ns) && Normal(now)
    requires t != null ==> t in ns && Compare(t.time, now) > 0
    ensures w0.QuietFor(start, now) ==> Swept(start, w0.start0, ns, log, now, {})
    ensures w0.omit.Some? && w0.omit.value in w0.start0 && InUsecs(w0.start0[w0.omit.value]) <= InUsecs(now) ==>
      w.moment.Some? && OmitSwept(start, w0.start0, w0.omit.value, w0.restarts, w.moment.value, log, now)
  {
    hide InUsecs, Dues, Swept, OmitSwept, Sweep.Tracked, Sweep.At, Sweep.QuietFor, AllNormal, Compare, Normal;
    if t != null {
      LateNow(ns, t, now);
    }
    DuesAre(start);
    AmongMembers(ns, start);
    TrackedEnd(start, ns, t, w0, w, log, Dues(start), now);
  }

  /** Some timer of the list is due, other than those. */
  ghost predicate Late(ns: seq<Timer>, others: set<Timer>, due0: map<Timer, Time>, now: Time) {
    exists x :: x in ns && x !in others && x in due0 && InUsecs(due0[x]) <= InUsecs(now)
  }

  /** The sweep is at o, right behind it is a timer that it restarts, and behind that one that it does
      not restart, that is due and that has not fired. */
  ghost predicate Holds(p: Place, o: Timer, restarts: set<Timer>, due0: map<Timer, Time>, now: Time) {
    && IsAt(p, o) && p.j + 1 < |p.ns| && p.ns[p.j + 1] in restarts
    && Late(p.ns[p.j + 1..], restarts + p.fired, due0, now)
  }

  /** The sweep of the list start first comes to o when n timers have fired. */
  ghost predicate ComesTo(start: seq<Timer>, due0: map<Timer, Time>, o: Timer, n: nat)
    reads start`periodic, start`usecs
  {
    IsAt(Ahead(start, due0, n), o) && forall i :: 0 <= i < n ==> !IsAt(Ahead(start, due0, i), o)
  }

  /** A timer is held up when the sweep comes to o. */
  ghost predicate Waits(start: seq<Timer>, due0: map<Timer, Time>, o: Timer, restarts: set<Timer>, now: Time)
    reads start`periodic, start`usecs
  {
    exists n: nat :: ComesTo(start, due0, o, n) && Holds(Ahead(start, due0, n), o, restarts, due0, now)
  }

  lemma WaitsThen(start: seq<Timer>, due0: map<Timer, Time>, o: Timer, restarts: set<Timer>, now: Time, n: nat)
    requires ComesTo(start, due0, o, n)
    ensures Waits(start, due0, o, restarts, now) <==> Holds(Ahead(start, due0, n), o, restarts, due0, now)
  {
    hide Ahead, Holds, IsAt;
    if Waits(start, due0, o, restarts, now) {
      var i: nat :| ComesTo(start, due0, o, i) && Holds(Ahead(start, due0, i), o, restarts, due0, now);
      assert !(i < n) && !(n < i);
    }
  }

  /** The list before the sweep tells: every due timer that is not restarted fires if and only if none
      waits behind one that is. */
  lemma OmitDecides(start: seq<Timer>, due0: map<Timer, Time>, o: Timer, restarts: set<Timer>, m: Moment,
                    log: seq<Firing>, now: Time)
    requires OmitSwept(start, due0, o, restarts, m, log, now)
    ensures AllFired(start, due0, restarts, log, now) <==> !Waits(start, due0, o, restarts, now)
  {
    hide InUsecs, Count, Reached, AllFired, Ahead, Matches, Holds, HeldUp, Waits;
    HeldAsForeseen(start, due0, o, restarts, m, now);
    WaitsThen(start, due0, o, restarts, now, |m.log|);
  }

  lemma HeldAsForeseen(start: seq<Timer>, due0: map<Timer, Time>, o: Timer, restarts: set<Timer>, m: Moment, now: Time)
    requires Reached(m, o, due0, now) && Foreseen(start, due0, o, m)
    ensures var p := Ahead(start, due0, |m.log|);
      IsAt(p, o) && (HeldUp(m, restarts, now) <==> Holds(p, o, restarts, due0, now))
  {
    hide InUsecs, Count, Ahead, Reached, HeldUp, Late;
    var p := Ahead(start, due0, |m.log|);
    MomentAt(m, o, due0, now);
    forall k | m.j < k < |m.ns|
      ensures m.ns[k] in p.fired <==> Count(m.log, m.ns[k]) > 0
      ensures m.ns[k] !in p.fired ==>
        m.ns[k] in m.due && m.ns[k] in due0 && InUsecs(m.due[m.ns[k]]) == InUsecs(due0[m.ns[k]])
    {
      assert m.ns[k] in p.ns && m.ns[k] in start;
      if m.ns[k] !in p.fired {
        BehindAsDue(m, o, due0, now, k);
      }
    }
    HeldIsLate(m, restarts, p.fired, due0, now);
  }

  /** What is held up is late on the list behind the omit timer, and has not fired. */
  lemma HeldIsLate(m: Moment, restarts: set<Timer>, fired: set<Timer>, due0: map<Timer, Time>, now: Time)
    requires m.j < |m.ns|
    requires forall k :: m.j < k < |m.ns| ==>
      && (m.ns[k] in fired <==> Count(m.log, m.ns[k]) > 0)
      && (m.ns[k] !in fired ==>
            m.ns[k] in m.due && m.ns[k] in due0 && InUsecs(m.due[m.ns[k]]) == InUsecs(due0[m.ns[k]]))
    ensures HeldUp(m, restarts, now)
      <==> NextHeld(m, restarts) && Late(m.ns[m.j + 1..], restarts + fired, due0, now)
  {
    hide InUsecs, Count;
    var behind := m.ns[m.j + 1..];
    if HeldUp(m, restarts, now) {
      var k :| m.j < k < |m.ns| && m.ns[k] in m.due
        && m.ns[k] !in restarts && Count(m.log, m.ns[k]) == 0 && InUsecs(m.due[m.ns[k]]) <= InUsecs(now);
      assert behind[k - m.j - 1] == m.ns[k] && m.ns[k] in behind;
    }
    if NextHeld(m, restarts) && Late(behind, restarts + fired, due0, now) {
      var x :| x in behind && x !in restarts + fired && x in due0 && InUsecs(due0[x]) <= InUsecs(now);
      var i :| 0 <= i < |behind| && behind[i] == x;
      assert m.ns[m.j + 1 + i] == x;
    }
  }

  lemma MomentAt(m: Moment, o: Timer, due0: map<Timer, Time>, now: Time)
    requires Reached(m, o, due0, now)
    ensures m.j < |m.ns| && m.ns[m.j] == o
  {
    hide InUsecs, History, Accounts, Queue, Passed, UpTo;
  }

  /** Nothing in front of the omit timer is periodic. */
  ghost predicate OneShotsBefore(start: seq<Timer>, o: Timer)
    requires o in start
    reads start`periodic
  {
    forall i :: 0 <= i < IndexOf(start, o) ==> !start[i].periodic
  }

  lemma OneShotOnward(p: Place, start: seq<Timer>)
    requires p.ns != [] && p.j == 0 && !p.ns[0].periodic && forall x :: x in p.ns ==> x in start
    ensures Onward(p, start) == Place(p.ns[1..], 0, p.due, p.fired + {p.ns[0]})
  {
    hide Slot, With;
    assert Without(p.ns, 0) == p.ns[1..];
  }

  lemma {:induction false} OneShotsGo(start: seq<Timer>, due0: map<Timer, Time>, n: nat)
    requires n <= |start| && forall i :: 0 <= i < n ==> !start[i].periodic
    ensures Ahead(start, due0, n) == Place(start[n..], 0, due0, Members(start[..n]))
  {
    hide Onward;
    if n == 0 {
      assert start[0..] == start && Members(start[..0]) == {};
    } else {
      OneShotsGo(start, due0, n - 1);
      var p := Ahead(start, due0, n - 1);
      OneShotOnward(p, start);
      assert p.ns[1..] == start[n..] && p.ns[0] == start[n - 1];
      assert start[..n] == start[..n - 1] + [start[n - 1]];
      assert Members(start[..n]) == p.fired + {p.ns[0]};
    }
  }

  lemma LateToo(a: seq<Timer>, b: seq<Timer>, but: set<Timer>, others: set<Timer>, due0: map<Timer, Time>, now: Time)
    requires forall x :: x in a && x !in but <==> x in b && x !in others
    ensures Late(a, but, due0, now) <==> Late(b, others, due0, now)
  {
    hide InUsecs;
  }

  lemma FrontApart(start: seq<Timer>, n: nat)
    requires Distinct(start) && n < |start|
    ensures forall i :: 0 <= i < n ==> start[i] != start[n]
    ensures forall x :: x in start[n + 1..] ==> x !in Members(start[..n])
  {
  }

  /** With nothing periodic in front of the omit timer, a timer waits if and only if the one right
      behind the omit timer on the list is one that it restarts. */
  lemma OneShotsInFront(start: seq<Timer>, due0: map<Timer, Time>, o: Timer, restarts: set<Timer>, now: Time)
    requires o in start && Distinct(start) && OneShotsBefore(start, o)
    ensures var behind := start[IndexOf(start, o) + 1..];
      Waits(start, due0, o, restarts, now)
      <==> behind != [] && behind[0] in restarts && Late(behind, restarts, due0, now)
  {
    hide Ahead, Late, Waits, Distinct, IndexOf;
    var n := IndexOf(start, o);
    FrontApart(start, n);
    var behind := start[n + 1..];
    forall i | 0 <= i <= n ensures Ahead(start, due0, i) == Place(start[i..], 0, due0, Members(start[..i])) {
      OneShotsGo(start, due0, i);
    }
    WaitsThen(start, due0, o, restarts, now, n);
    assert start[n..][1..] == behind;
    LateToo(behind, behind, restarts + Members(start[..n]), restarts, due0, now);
  }

  /** Where one periodic timer, p, that is in front of the omit timer goes when it has fired: right
      behind the omit timer, if its next time lies between those of the omit timer and of the one
      behind. */
  ghost predicate Between(p: Timer, o: Timer, rest: seq<Timer>, due0: map<Timer, Time>)
    requires p in due0 && o in due0 && forall x :: x in rest ==> x in due0
    reads p`usecs
  {
    var next := AddUsecs(due0[p], p.usecs);
    Compare(due0[o], next) <= 0 && (rest == [] || Compare(next, due0[rest[0]]) < 0)
  }

  /** Then it holds up what is behind; if not, the one that was behind the omit timer may. */
  lemma PeriodicInFront(p: Timer, o: Timer, rest: seq<Timer>, due0: map<Timer, Time>, restarts: set<Timer>, now: Time)
    requires Distinct([p, o] + rest) && p.periodic && p in restarts
    requires p in due0 && o in due0 && forall x :: x in rest ==> x in due0
    ensures Waits([p, o] + rest, due0, o, restarts, now)
      <==> Late(rest, restarts, due0, now) && (Between(p, o, rest, due0) || rest[0] in restarts)
  {
    hide Late, Waits, Between, Distinct, With, Ahead;
    var start := [p, o] + rest;
    var b := Ahead(start, due0, 1);
    NotThere(p, o, rest, due0);
    var k := OneJump(p, o, rest, due0);
    JumpedBehind(p, o, rest, k, b);
    assert ComesTo(start, due0, o, 1);
    WaitsThen(start, due0, o, restarts, now, 1);
    LateToo(b.ns[b.j + 1..], rest, restarts + {p}, restarts, due0, now);
    if rest == [] {
      NoneLate(restarts, due0, now);
    }
  }

  lemma NoneLate(others: set<Timer>, due0: map<Timer, Time>, now: Time)
    ensures !Late([], others, due0, now)
  {
  }

  lemma NotThere(p: Timer, o: Timer, rest: seq<Timer>, due0: map<Timer, Time>)
    requires Distinct([p, o] + rest)
    ensures !IsAt(Ahead([p, o] + rest, due0, 0), o) && p !in rest
  {
    var start := [p, o] + rest;
    assert forall i :: 0 <= i < |rest| ==> start[i + 2] == rest[i];
    assert start[0] == p && start[1] == o;
  }

  /** The first step of such a sweep; k is where the timer goes among the others. */
  lemma OneJump(p: Timer, o: Timer, rest: seq<Timer>, due0: map<Timer, Time>) returns (k: nat)
    requires p.periodic && p in due0 && o in due0 && forall x :: x in rest ==> x in due0
    ensures k <= |rest| + 1 && (k == 1 <==> Between(p, o, rest, due0))
    ensures var b := Ahead([p, o] + rest, due0, 1);
      b.ns == With([o] + rest, k, p) && b.j == (if k == 0 then 1 else 0) && b.fired == {p}
  {
    hide Compare, AddUsecs, With;
    var start, next := [p, o] + rest, AddUsecs(due0[p], p.usecs);
    assert Ahead(start, due0, 0) == Place(start, 0, due0, {});
    assert Without(start, 0) == [o] + rest;
    k := Slot([o] + rest, due0, next);
    SlotBehind(o, rest, due0, next);
  }

  lemma SlotBehind(o: Timer, rest: seq<Timer>, due: map<Timer, Time>, time: Time)
    requires o in due && forall x :: x in rest ==> x in due
    ensures Slot([o] + rest, due, time) == 1
      <==> Compare(due[o], time) <= 0 && (rest == [] || Compare(time, due[rest[0]]) < 0)
  {
    assert ([o] + rest)[1..] == rest;
    assert rest != [] ==> rest[0] in rest;
    assert Compare(time, due[o]) < 0 <==> !(Compare(due[o], time) <= 0);
    hide Compare;
  }

  lemma JumpedBehind(p: Timer, o: Timer, rest: seq<Timer>, k: nat, b: Place)
    requires k <= |rest| + 1 && b.ns == With([o] + rest, k, p) && b.j == (if k == 0 then 1 else 0)
    requires p !in rest
    ensures IsAt(b, o)
    ensures var behind := b.ns[b.j + 1..];
      && (k == 1 ==> behind != [] && behind[0] == p)
      && (k != 1 && behind != [] ==> rest != [] && behind[0] == rest[0])
      && (rest != [] ==> behind != [])
      && (forall x :: x in behind && x != p <==> x in rest)
  {
    var behind := b.ns[b.j + 1..];
    if k == 0 {
      assert behind == rest;
    } else {
      assert behind == With(rest, k - 1, p);
      WithMembers(rest, k - 1, p, behind);
    }
  }

  /** On a list of an omit timer, the statistics timer it restarts and the test's own timer, the latter due,
      that one fires unless it waits. */
  lemma TestTimerFires(start: seq<Timer>, o: Timer, stats: Timer, test: Timer, due0: map<Timer, Time>, m: Moment,
                       log: seq<Firing>, now: Time)
    requires OmitSwept(start, due0, o, {stats}, m, log, now) && test != stats
    requires Members(start) == {o, stats, test} && test in due0 && InUsecs(due0[test]) <= InUsecs(now)
    ensures Count(log, test) > 0 <==> !Waits(start, due0, o, {stats}, now)
  {
    hide InUsecs, Count, Reached, Foreseen, HeldUp;
    OmitDecides(start, due0, o, {stats}, m, log, now);
    assert test in Members(start) && forall x :: x in start <==> x in Members(start);
    ReachedAt(m, o, due0, now);
    var f, rest := Firing(o, m.due[o]), log[|m.log| + 1..];
    assert log == m.log + [f] + rest;
    CountConcat(m.log + [f], rest, o);
    CountAppend(m.log, f, o);
  }

  /** A process that resumes late finds the omit timer, the statistics timer behind it and the test's
      own timer all due: the test's timer does not fire in this sweep. */
  lemma TestTimerWaits(o: Timer, stats: Timer, test: Timer, due0: map<Timer, Time>, m: Moment, log: seq<Firing>,
                       now: Time)
    requires OmitSwept([o, stats, test], due0, o, {stats}, m, log, now) && test != stats
    requires test in due0 && InUsecs(due0[test]) <= InUsecs(now)
    ensures Count(log, test) == 0
  {
    hide InUsecs, Count, Reached, Matches, HeldUp, AllFired, Ahead;
    var start := [o, stats, test];
    assert IndexOf(start, o) == 0;
    var behind := start[1..];
    assert behind == [stats, test] && behind[1] == test;
    OneShotsInFront(start, due0, o, {stats}, now);
    TestTimerFires(start, o, stats, test, due0, m, log, now);
  }

  /** As a test is started, the statistics timer comes before the omit timer. Then the test's timer waits
      if and only if the next time of the statistics timer lies between the two others. */
  lemma TestTimerBehindStats(stats: Timer, o: Timer, test: Timer, due0: map<Timer, Time>, m: Moment,
                             log: seq<Firing>, now: Time)
    requires OmitSwept([stats, o, test], due0, o, {stats}, m, log, now) && test != stats && stats.periodic
    requires due0.Keys == {stats, o, test} && InUsecs(due0[test]) <= InUsecs(now)
    ensures var next := AddUsecs(due0[stats], stats.usecs);
      Count(log, test) == 0 <==> Compare(due0[o], next) <= 0 && Compare(next, due0[test]) < 0
  {
    hide InUsecs, Count, Reached, Matches, HeldUp, AllFired, Ahead, Compare, AddUsecs;
    var rest := [test];
    assert [stats, o, test] == [stats, o] + rest && rest[0] == test;
    PeriodicInFront(stats, o, rest, due0, {stats}, now);
    TestTimerFires([stats, o, test], o, stats, test, due0, m, log, now);
  }

  lemma NotHeldUp(m: Moment, restarts: set<Timer>, now: Time)
    requires !NextHeld(m, restarts)
    ensures !HeldUp(m, restarts, now)
  {
  }
}
