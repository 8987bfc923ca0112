// The discrete-event loop of SmartGridToolbox/Simulation.{h,cc}: a set of
// scheduled updates ordered by (time, rank, name), a set of contingent
// updates ordered by (rank, name), and the current time, advanced one
// component update at a time.
//
// Both `std::set`s are sorted sequences without two equivalent elements.
// A component is its identity plus the rank and name the comparators read;
// what a component does when updated at time t (the time it then stays valid
// until, and the components whose `needsUpdate` event it fires) is the
// function `update`, and the time it asks to start at after
// `initialize(startTime)` is the function `start`.

module SimulationLoop {
  import opened Shared
  import opened SimTime

  /** A component as the simulation sees it. */
  datatype Comp = Comp(id: nat, rank: int, name: string)

  /** A scheduled update: a component and the time it is due. */
  datatype Entry = Entry(comp: Comp, time: Time)

  /** The outcome of updating a component: the time its state stays valid
      until, and the components whose `needsUpdate` event fired meanwhile. */
  datatype Update = Update(validUntil: Time, triggers: seq<Comp>)

  /** The part of the simulation `doNextUpdate` reads and writes. */
  datatype SimState = SimState(currentTime: Time, endTime: Time,
                               scheduled: seq<Entry>, contingent: seq<Comp>)

  // ---------------------------------------------------------------------
  // The two comparators

  /** ScheduledUpdatesCompare: soonest first, then smallest rank, then name. */
  predicate SchedLess(a: Entry, b: Entry)
  {
    Less(a.time, b.time)
    || (a.time == b.time && a.comp.rank < b.comp.rank)
    || (a.time == b.time && a.comp.rank == b.comp.rank && StrLess(a.comp.name, b.comp.name))
  }

  /** ContingentUpdatesCompare: smallest rank first, then name. */
  predicate ContLess(a: Comp, b: Comp)
  {
    a.rank < b.rank || (a.rank == b.rank && StrLess(a.name, b.name))
  }

  /** The key both comparators look at besides the time. */
  predicate SameKey(a: Comp, b: Comp) { a.rank == b.rank && a.name == b.name }

  /** The scheduled comparator is a strict order. */
  lemma SchedLessStrict(a: Entry, b: Entry, c: Entry)
    ensures !SchedLess(a, a)
    ensures SchedLess(a, b) ==> !SchedLess(b, a)
    ensures SchedLess(a, b) && SchedLess(b, c) ==> SchedLess(a, c)
  {
    LessStrictOrder(a.time, b.time, c.time);
    LessStrictOrder(b.time, a.time, c.time);
    StrLessIrreflexive(a.comp.name);
    if StrLess(a.comp.name, b.comp.name) && StrLess(b.comp.name, a.comp.name) {
      StrLessTransitive(a.comp.name, b.comp.name, a.comp.name);
    }
    if StrLess(a.comp.name, b.comp.name) && StrLess(b.comp.name, c.comp.name) {
      StrLessTransitive(a.comp.name, b.comp.name, c.comp.name);
    }
  }

  /** On ordered times, two scheduled entries are either ordered or agree on
      time, rank and name. */
  lemma SchedLessTotal(a: Entry, b: Entry)
    requires !a.time.NotADateTime? && !b.time.NotADateTime?
    ensures SchedLess(a, b) || SchedLess(b, a) || (a.time == b.time && SameKey(a.comp, b.comp))
  {
    LessStrictOrder(a.time, b.time, b.time);
    StrLessTotal(a.comp.name, b.comp.name);
  }

  /** The contingent comparator is a strict order. */
  lemma ContLessStrict(a: Comp, b: Comp, c: Comp)
    ensures !ContLess(a, a)
    ensures ContLess(a, b) ==> !ContLess(b, a)
    ensures ContLess(a, b) && ContLess(b, c) ==> ContLess(a, c)
  {
    StrLessIrreflexive(a.name);
    if StrLess(a.name, b.name) && StrLess(b.name, a.name) {
      StrLessTransitive(a.name, b.name, a.name);
    }
    if StrLess(a.name, b.name) && StrLess(b.name, c.name) {
      StrLessTransitive(a.name, b.name, c.name);
    }
  }

  /** Two components are either ordered by the contingent comparator or share
      rank and name, so that set keeps one component per (rank, name). */
  lemma ContLessTotal(a: Comp, b: Comp)
    ensures ContLess(a, b) || ContLess(b, a) || SameKey(a, b)
  {
    StrLessTotal(a.name, b.name);
  }

  // ---------------------------------------------------------------------
  // The two sets as sorted sequences

  predicate SortedS(s: seq<Entry>)
  {
    forall i, j :: 0 <= i < j < |s| ==> SchedLess(s[i], s[j])
  }

  predicate SortedC(s: seq<Comp>)
  {
    forall i, j :: 0 <= i < j < |s| ==> ContLess(s[i], s[j])
  }

  /** No entry of s is equivalent to x, so `insert(x)` adds it. */
  predicate NoEquivS(s: seq<Entry>, x: Entry)
  {
    forall f :: f in s ==> SchedLess(f, x) || SchedLess(x, f)
  }

  predicate NoEquivC(s: seq<Comp>, x: Comp)
  {
    forall f :: f in s ==> ContLess(f, x) || ContLess(x, f)
  }

  /** No component has two scheduled entries. */
  predicate DistinctComps(s: seq<Entry>)
  {
    forall i, j :: 0 <= i < j < |s| ==> s[i].comp != s[j].comp
  }

  /** Distinct components of the model have distinct (rank, name) keys. */
  predicate KeyInjective(comps: seq<Comp>)
  {
    forall a, b :: a in comps && b in comps && SameKey(a, b) ==> a == b
  }

  /** `scheduledUpdates_.insert(x)`. */
  function InsertS(s: seq<Entry>, x: Entry): seq<Entry>
  {
    if |s| == 0 then [x]
    else if SchedLess(x, s[0]) then [x] + s
    else if SchedLess(s[0], x) then [s[0]] + InsertS(s[1..], x)
    else s
  }

  /** `contingentUpdates_.insert(x)`. */
  function InsertC(s: seq<Comp>, x: Comp): seq<Comp>
  {
    if |s| == 0 then [x]
    else if ContLess(x, s[0]) then [x] + s
    else if ContLess(s[0], x) then [s[0]] + InsertC(s[1..], x)
    else s
  }

  /** The contingent inserts made, in order, by the `needsUpdate` actions. */
  function InsertAllC(s: seq<Comp>, xs: seq<Comp>): seq<Comp>
    decreases |xs|
  {
    if |xs| == 0 then s else InsertAllC(InsertC(s, xs[0]), xs[1..])
  }

  /** `contingentUpdates_.erase(c)`: removes the element equivalent to c. */
  function EraseC(s: seq<Comp>, c: Comp): seq<Comp>
  {
    if |s| == 0 then []
    else if !ContLess(s[0], c) && !ContLess(c, s[0]) then s[1..]
    else [s[0]] + EraseC(s[1..], c)
  }

  /** The search loop that erases the first scheduled entry of component c. */
  function RemoveComp(s: seq<Entry>, c: Comp): seq<Entry>
  {
    if |s| == 0 then []
    else if s[0].comp == c then s[1..]
    else [s[0]] + RemoveComp(s[1..], c)
  }

  /** A sorted insert keeps the sequence sorted, adds x exactly when nothing
      equivalent is present, and otherwise changes nothing. */
  lemma {:induction false} InsertSSpec(s: seq<Entry>, x: Entry)
    requires SortedS(s)
    ensures SortedS(InsertS(s, x))
    ensures forall e :: e in InsertS(s, x) <==> e in s || (e == x && NoEquivS(s, x))
    ensures !NoEquivS(s, x) ==> InsertS(s, x) == s
    ensures DistinctComps(s) && (forall f :: f in s ==> f.comp != x.comp) ==> DistinctComps(InsertS(s, x))
  {
    InsertSSorted(s, x);
    if DistinctComps(s) && (forall f :: f in s ==> f.comp != x.comp) {
      InsertSDistinct(s, x);
    }
  }

  /** The ordering and membership half of `InsertSSpec`. */
  lemma {:induction false} InsertSSorted(s: seq<Entry>, x: Entry)
    requires SortedS(s)
    ensures SortedS(InsertS(s, x))
    ensures forall e :: e in InsertS(s, x) <==> e in s || (e == x && NoEquivS(s, x))
    ensures !NoEquivS(s, x) ==> InsertS(s, x) == s
  {
    if |s| == 0 {
    } else if SchedLess(x, s[0]) {
      forall j | 0 <= j < |s| ensures SchedLess(x, s[j]) {
        SchedLessStrict(x, s[0], s[j]);
      }
    } else if SchedLess(s[0], x) {
      InsertSSorted(s[1..], x);
      var r := InsertS(s[1..], x);
      forall j | 0 <= j < |r| ensures SchedLess(s[0], r[j]) {
        assert r[j] in r;
      }
      assert NoEquivS(s, x) <==> NoEquivS(s[1..], x) by {
        assert s == [s[0]] + s[1..];
      }
      assert s == [s[0]] + s[1..];
    } else {
      assert s[0] in s;
    }
  }

  /** The distinct-components half of `InsertSSpec`. */
  lemma {:induction false} InsertSDistinct(s: seq<Entry>, x: Entry)
    requires SortedS(s) && DistinctComps(s) && forall f :: f in s ==> f.comp != x.comp
    ensures DistinctComps(InsertS(s, x))
  {
    if |s| == 0 {
    } else if SchedLess(x, s[0]) {
      assert forall j :: 0 <= j < |s| ==> s[j] in s;
    } else if SchedLess(s[0], x) {
      InsertSSorted(s[1..], x);
      InsertSDistinct(s[1..], x);
      var r := InsertS(s[1..], x);
      forall j | 0 <= j < |r| ensures s[0].comp != r[j].comp {
        assert r[j] in r;
        if r[j] != x {
          var k :| 0 <= k < |s[1..]| && s[1..][k] == r[j];
          assert s[k + 1] == r[j];
        }
      }
    }
  }

  lemma {:induction false} InsertCSpec(s: seq<Comp>, x: Comp)
    requires SortedC(s)
    ensures SortedC(InsertC(s, x))
    ensures forall e :: e in InsertC(s, x) <==> e in s || (e == x && NoEquivC(s, x))
  {
    if |s| == 0 {
    } else if ContLess(x, s[0]) {
      forall j | 0 <= j < |s| ensures ContLess(x, s[j]) {
        ContLessStrict(x, s[0], s[j]);
      }
    } else if ContLess(s[0], x) {
      InsertCSpec(s[1..], x);
      var r := InsertC(s[1..], x);
      forall j | 0 <= j < |r| ensures ContLess(s[0], r[j]) {
        assert r[j] in r;
      }
      assert NoEquivC(s, x) <==> NoEquivC(s[1..], x) by {
        assert s == [s[0]] + s[1..];
      }
      assert s == [s[0]] + s[1..];
    } else {
      assert s[0] in s;
    }
  }

  /** Among components with distinct keys, an insert adds x and nothing else. */
  lemma InsertCMembers(s: seq<Comp>, x: Comp, comps: seq<Comp>)
    requires SortedC(s) && KeyInjective(comps)
    requires x in comps && forall d :: d in s ==> d in comps
    ensures SortedC(InsertC(s, x))
    ensures forall e :: e in InsertC(s, x) <==> e in s || e == x
  {
    InsertCSpec(s, x);
    if !NoEquivC(s, x) {
      var f :| f in s && !ContLess(f, x) && !ContLess(x, f);
      ContLessTotal(f, x);
    }
  }

  lemma {:induction false} InsertAllCSpec(s: seq<Comp>, xs: seq<Comp>, comps: seq<Comp>)
    requires SortedC(s) && KeyInjective(comps)
    requires (forall d :: d in s ==> d in comps) && (forall d :: d in xs ==> d in comps)
    ensures SortedC(InsertAllC(s, xs))
    ensures forall e :: e in InsertAllC(s, xs) <==> e in s || e in xs
    decreases |xs|
  {
    if |xs| > 0 {
      assert xs[0] in xs;
      InsertCMembers(s, xs[0], comps);
      forall d | d in xs[1..] ensures d in comps {
        var k :| 0 <= k < |xs[1..]| && xs[1..][k] == d;
        assert xs[k + 1] == d;
      }
      InsertAllCSpec(InsertC(s, xs[0]), xs[1..], comps);
      assert xs == [xs[0]] + xs[1..];
    }
  }

  /** Erasing by key removes exactly the elements equivalent to c. */
  lemma {:induction false} EraseCSpec(s: seq<Comp>, c: Comp)
    requires SortedC(s)
    ensures SortedC(EraseC(s, c))
    ensures forall e :: e in EraseC(s, c) <==> e in s && (ContLess(e, c) || ContLess(c, e))
  {
    if |s| == 0 {
    } else if !ContLess(s[0], c) && !ContLess(c, s[0]) {
      ContLessTotal(s[0], c);
      ContLessStrict(s[0], s[0], s[0]);
      forall e | e in s[1..] ensures ContLess(c, e) {
        var k :| 0 <= k < |s[1..]| && s[1..][k] == e;
        assert s[k + 1] == e;
      }
      assert s == [s[0]] + s[1..];
    } else {
      EraseCSpec(s[1..], c);
      var r := EraseC(s[1..], c);
      forall j | 0 <= j < |r| ensures ContLess(s[0], r[j]) {
        assert r[j] in r;
        var k :| 0 <= k < |s[1..]| && s[1..][k] == r[j];
        assert s[k + 1] == r[j];
      }
      assert s == [s[0]] + s[1..];
    }
  }

  /** Erasing by component keeps every entry of other components and adds
      none. */
  lemma {:induction false} RemoveCompSubset(s: seq<Entry>, c: Comp)
    ensures forall e :: e in RemoveComp(s, c) ==> e in s
    ensures forall e :: e in s && e.comp != c ==> e in RemoveComp(s, c)
  {
    if |s| > 0 && s[0].comp != c {
      RemoveCompSubset(s[1..], c);
    }
    if |s| > 0 {
      assert s == [s[0]] + s[1..];
    }
  }

  /** With one entry per component, erasing by component removes exactly
      that component's entry and keeps the set sorted. */
  lemma {:induction false} RemoveCompSpec(s: seq<Entry>, c: Comp)
    requires DistinctComps(s)
    ensures forall e :: e in RemoveComp(s, c) <==> e in s && e.comp != c
    ensures DistinctComps(RemoveComp(s, c))
    ensures SortedS(s) ==> SortedS(RemoveComp(s, c))
  {
    RemoveCompSubset(s, c);
    RemoveCompKeeps(s, c);
  }

  /** The distinct-components and ordering half of `RemoveCompSpec`. */
  lemma {:induction false} RemoveCompKeeps(s: seq<Entry>, c: Comp)
    requires DistinctComps(s)
    ensures forall e :: e in RemoveComp(s, c) ==> e.comp != c
    ensures DistinctComps(RemoveComp(s, c))
    ensures SortedS(s) ==> SortedS(RemoveComp(s, c))
  {
    if |s| == 0 {
    } else if s[0].comp == c {
      forall e | e in s[1..] ensures e.comp != c {
        var k :| 0 <= k < |s[1..]| && s[1..][k] == e;
        assert s[k + 1] == e;
      }
    } else {
      RemoveCompSubset(s[1..], c);
      RemoveCompKeeps(s[1..], c);
      var r := RemoveComp(s[1..], c);
      forall j | 0 <= j < |r| ensures s[0].comp != r[j].comp && (SortedS(s) ==> SchedLess(s[0], r[j])) {
        assert r[j] in r;
        var k :| 0 <= k < |s[1..]| && s[1..][k] == r[j];
        assert s[k + 1] == r[j];
      }
    }
  }

  /** The erase loop of `EraseScheduled` on a snapshot of the set: walk to
      the first entry of c and cut it out. */
  method EraseFirst(s: seq<Entry>, c: Comp) returns (r: seq<Entry>)
    ensures r == RemoveComp(s, c)
  {
    var k := 0;
    while k < |s| && s[k].comp != c
      invariant 0 <= k <= |s|
      invariant RemoveComp(s, c) == s[..k] + RemoveComp(s[k..], c)
    {
      RemoveCompSkip(s, k, c);
      assert s[..k + 1] == s[..k] + [s[k]];
      k := k + 1;
    }
    if k < |s| {
      assert s[k..][1..] == s[k + 1..];
      r := s[..k] + s[k + 1..];
    } else {
      assert s[..k] == s;
      r := s;
    }
  }

  /** One step of the erase loop: skipping an entry of another component. */
  lemma RemoveCompSkip(s: seq<Entry>, k: nat, c: Comp)
    requires k < |s| && s[k].comp != c
    ensures RemoveComp(s[k..], c) == [s[k]] + RemoveComp(s[k + 1..], c)
  {
    assert s[k..][1..] == s[k + 1..];
  }

  /** A fresh component's entry has nothing equivalent in the set. */
  lemma NoEquivFresh(s: seq<Entry>, x: Entry, comps: seq<Comp>)
    requires KeyInjective(comps) && x.comp in comps && !x.time.NotADateTime?
    requires forall f :: f in s ==> f.comp in comps && f.comp != x.comp && !f.time.NotADateTime?
    ensures NoEquivS(s, x)
  {
    forall f | f in s ensures SchedLess(f, x) || SchedLess(x, f) {
      SchedLessTotal(f, x);
    }
  }

  /** One pass of the `initialize` loop: component i joins the scheduled
      set at its start time unless it is already there. */
  lemma ScheduleOne(s: seq<Entry>, comps: seq<Comp>, i: nat, start: (Comp, Time) -> Time, t0: Time)
    requires KeyInjective(comps) && i < |comps|
    requires forall c, t :: c in comps ==> !start(c, t).NotADateTime?
    requires SortedS(s) && DistinctComps(s)
    requires forall e :: e in s <==> e.comp in comps[..i] && e.time == start(e.comp, t0)
    ensures var r := InsertS(s, Entry(comps[i], start(comps[i], t0)));
      SortedS(r) && DistinctComps(r)
      && forall e :: e in r <==> e.comp in comps[..i + 1] && e.time == start(e.comp, t0)
  {
    var c := comps[i];
    var x := Entry(c, start(c, t0));
    assert c in comps;
    assert comps[..i + 1] == comps[..i] + [c];
    if c in comps[..i] {
      assert x in s;
      SchedLessStrict(x, x, x);
      InsertSSorted(s, x);
    } else {
      forall f | f in s ensures f.comp in comps && f.comp != c && !f.time.NotADateTime? {
        var k :| 0 <= k < i && comps[k] == f.comp;
      }
      NoEquivFresh(s, x, comps);
      InsertSSorted(s, x);
      InsertSDistinct(s, x);
    }
  }

  // ---------------------------------------------------------------------
  // What doNextUpdate does, as functions of the state

  /** What the components may do: they are valid until an ordered time and
      only ever trigger components of the model. */
  ghost predicate BehaviourOk(comps: seq<Comp>, update: (Comp, Time) -> Update)
  {
    forall c, t :: c in comps ==>
      !update(c, t).validUntil.NotADateTime? && (forall d :: d in update(c, t).triggers ==> d in comps)
  }

  /** The sets are well formed and hold only components of the model. */
  ghost predicate Consistent(st: SimState, comps: seq<Comp>)
  {
    !st.currentTime.NotADateTime?
    && SortedS(st.scheduled) && DistinctComps(st.scheduled) && SortedC(st.contingent)
    && (forall e :: e in st.scheduled ==> e.comp in comps && !e.time.NotADateTime?)
    && (forall d :: d in st.contingent ==> d in comps)
  }

  /** Every component has a scheduled entry (one, given DistinctComps). */
  ghost predicate OneEntryEach(st: SimState, comps: seq<Comp>)
  {
    forall c :: c in comps ==> exists e :: e in st.scheduled && e.comp == c
  }

  function NextSchedTime(st: SimState): Time
  {
    if |st.scheduled| > 0 then st.scheduled[0].time else PosInfin
  }

  /** The condition of the contingent branch. */
  predicate ContingentDue(st: SimState)
  {
    Less(st.currentTime, NextSchedTime(st)) && |st.contingent| > 0 && Less(st.currentTime, st.endTime)
  }

  /** The condition of the scheduled branch. */
  predicate ScheduledDue(st: SimState)
  {
    !ContingentDue(st) && |st.scheduled| > 0 && Less(NextSchedTime(st), st.endTime)
  }

  /** The contingent branch: update the first contingent component now. */
  function ContingentStep(st: SimState, update: (Comp, Time) -> Update): SimState
    requires |st.contingent| > 0
  {
    var c := st.contingent[0];
    var u := update(c, st.currentTime);
    st.(scheduled := InsertS(RemoveComp(st.scheduled, c), Entry(c, u.validUntil)),
        contingent := InsertAllC(st.contingent[1..], u.triggers))
  }

  /** The scheduled branch: advance to the first scheduled entry and update it. */
  function ScheduledStep(st: SimState, update: (Comp, Time) -> Update): SimState
    requires |st.scheduled| > 0
  {
    var c := st.scheduled[0].comp;
    var t := st.scheduled[0].time;
    var u := update(c, t);
    SimState(t, st.endTime, InsertS(st.scheduled[1..], Entry(c, u.validUntil)),
             InsertAllC(EraseC(st.contingent, c), u.triggers))
  }

  function NextState(st: SimState, update: (Comp, Time) -> Update): SimState
  {
    if ContingentDue(st) then ContingentStep(st, update)
    else if ScheduledDue(st) then ScheduledStep(st, update)
    else st
  }

  /** The condition under which the timestep-complete events fire. */
  predicate StepCompleted(st: SimState)
  {
    |st.contingent| == 0 && (|st.scheduled| == 0 || Less(st.currentTime, st.scheduled[0].time))
  }

  /** Work left for the timestep that completes at t. */
  predicate WorkRemains(st: SimState, t: Time)
  {
    |st.contingent| > 0 || (|st.scheduled| > 0 && st.scheduled[0].time == t)
  }

  /** Updating component c at time t once its old entry is gone: the new
      entry is (c, validUntil) and the triggered components join the
      contingent set. */
  lemma ApplyUpdateSpec(sched: seq<Entry>, cont: seq<Comp>, c: Comp, t: Time,
                        comps: seq<Comp>, update: (Comp, Time) -> Update)
    requires KeyInjective(comps) && BehaviourOk(comps, update) && c in comps
    requires SortedS(sched) && DistinctComps(sched)
    requires forall e :: e in sched ==> e.comp in comps && e.comp != c && !e.time.NotADateTime?
    requires SortedC(cont) && forall d :: d in cont ==> d in comps
    ensures var r := InsertS(sched, Entry(c, update(c, t).validUntil));
      SortedS(r) && DistinctComps(r)
      && forall e :: e in r <==> e in sched || e == Entry(c, update(c, t).validUntil)
    ensures var k := InsertAllC(cont, update(c, t).triggers);
      SortedC(k) && forall d :: d in k <==> d in cont || d in update(c, t).triggers
  {
    var x := Entry(c, update(c, t).validUntil);
    NoEquivFresh(sched, x, comps);
    InsertSSpec(sched, x);
    InsertAllCSpec(cont, update(c, t).triggers, comps);
  }

  /** Dropping the first contingent component leaves the others. */
  lemma ContingentTail(cont: seq<Comp>)
    requires SortedC(cont) && |cont| > 0
    ensures SortedC(cont[1..])
    ensures forall d :: d in cont[1..] <==> d in cont && d != cont[0]
  {
    ContLessStrict(cont[0], cont[0], cont[0]);
    forall d | d in cont[1..] ensures d != cont[0] {
      var k :| 0 <= k < |cont[1..]| && cont[1..][k] == d;
      assert cont[k + 1] == d;
    }
    assert cont == [cont[0]] + cont[1..];
  }

  /** Dropping the first scheduled entry removes its component's entry. */
  lemma ScheduledTail(s: seq<Entry>)
    requires SortedS(s) && DistinctComps(s) && |s| > 0
    ensures SortedS(s[1..]) && DistinctComps(s[1..])
    ensures forall e :: e in s[1..] <==> e in s && e.comp != s[0].comp
  {
    forall e | e in s[1..] ensures e.comp != s[0].comp {
      var k :| 0 <= k < |s[1..]| && s[1..][k] == e;
      assert s[k + 1] == e;
    }
    assert s == [s[0]] + s[1..];
  }

  /** Among components with distinct keys, erasing c removes c alone. */
  lemma EraseCMembers(cont: seq<Comp>, c: Comp, comps: seq<Comp>)
    requires SortedC(cont) && KeyInjective(comps) && c in comps
    requires forall d :: d in cont ==> d in comps
    ensures SortedC(EraseC(cont, c))
    ensures forall d :: d in EraseC(cont, c) <==> d in cont && d != c
  {
    EraseCSpec(cont, c);
    ContLessStrict(c, c, c);
    forall d | d in cont ensures (ContLess(d, c) || ContLess(c, d)) <==> d != c {
      ContLessTotal(d, c);
    }
  }

  /** Replacing the entry of c by another entry of c keeps every component
      scheduled. */
  lemma KeepsOneEntry(s0: seq<Entry>, s1: seq<Entry>, x: Entry, comps: seq<Comp>)
    requires x in s1
    requires forall e: Entry :: e.comp != x.comp ==> (e in s1 <==> e in s0)
    requires forall c :: c in comps ==> exists e :: e in s0 && e.comp == c
    ensures forall c :: c in comps ==> exists e :: e in s1 && e.comp == c
  {
    forall c | c in comps ensures exists e :: e in s1 && e.comp == c {
      if c != x.comp {
        var e :| e in s0 && e.comp == c;
        assert e in s1;
      }
    }
  }

  /** The contingent branch keeps the time, removes the first contingent
      component from both sets, reschedules it at its validUntil, adds the
      components it triggered, and keeps every other scheduled entry. */
  lemma ContingentStepSpec(st: SimState, comps: seq<Comp>, update: (Comp, Time) -> Update)
    requires Consistent(st, comps) && KeyInjective(comps) && BehaviourOk(comps, update)
    requires ContingentDue(st)
    ensures var r := NextState(st, update);
      var c := st.contingent[0];
      var u := update(c, st.currentTime);
      && r.currentTime == st.currentTime && r.endTime == st.endTime
      && Less(r.currentTime, st.endTime)
      && Entry(c, u.validUntil) in r.scheduled
      && (forall e :: e in r.scheduled && e.comp == c ==> e == Entry(c, u.validUntil))
      && (forall e: Entry :: e.comp != c ==> (e in r.scheduled <==> e in st.scheduled))
      && (forall d :: d in r.contingent <==> (d in st.contingent && d != c) || d in u.triggers)
    ensures Consistent(NextState(st, update), comps)
    ensures OneEntryEach(st, comps) ==> OneEntryEach(NextState(st, update), comps)
  {
    var c := st.contingent[0];
    var u := update(c, st.currentTime);
    assert c in st.contingent;
    ContingentTail(st.contingent);
    RemoveCompSpec(st.scheduled, c);
    ApplyUpdateSpec(RemoveComp(st.scheduled, c), st.contingent[1..], c, st.currentTime, comps, update);
    var r := NextState(st, update);
    if OneEntryEach(st, comps) {
      KeepsOneEntry(st.scheduled, r.scheduled, Entry(c, u.validUntil), comps);
    }
  }

  /** The scheduled branch moves the time to the first scheduled entry (still
      before the end time), removes that component from both sets,
      reschedules it at its validUntil and adds the components it
      triggered. */
  lemma ScheduledStepSpec(st: SimState, comps: seq<Comp>, update: (Comp, Time) -> Update)
    requires Consistent(st, comps) && KeyInjective(comps) && BehaviourOk(comps, update)
    requires ScheduledDue(st)
    ensures var r := NextState(st, update);
      var c := st.scheduled[0].comp;
      var u := update(c, st.scheduled[0].time);
      && r.currentTime == st.scheduled[0].time && r.endTime == st.endTime
      && Less(r.currentTime, st.endTime)
      && Entry(c, u.validUntil) in r.scheduled
      && (forall e :: e in r.scheduled && e.comp == c ==> e == Entry(c, u.validUntil))
      && (forall e: Entry :: e.comp != c ==> (e in r.scheduled <==> e in st.scheduled))
      && (forall d :: d in r.contingent <==> (d in st.contingent && d != c) || d in u.triggers)
    ensures Consistent(NextState(st, update), comps)
    ensures OneEntryEach(st, comps) ==> OneEntryEach(NextState(st, update), comps)
  {
    var c := st.scheduled[0].comp;
    var t := st.scheduled[0].time;
    var u := update(c, t);
    assert st.scheduled[0] in st.scheduled;
    ScheduledTail(st.scheduled);
    EraseCMembers(st.contingent, c, comps);
    ApplyUpdateSpec(st.scheduled[1..], EraseC(st.contingent, c), c, t, comps, update);
    var r := NextState(st, update);
    if OneEntryEach(st, comps) {
      KeepsOneEntry(st.scheduled, r.scheduled, Entry(c, u.validUntil), comps);
    }
  }

  /** Every step keeps the state consistent and every component scheduled;
      a step that updates something leaves the time before the end time. */
  lemma NextStatePreserves(st: SimState, comps: seq<Comp>, update: (Comp, Time) -> Update)
    requires Consistent(st, comps) && KeyInjective(comps) && BehaviourOk(comps, update)
    ensures Consistent(NextState(st, update), comps)
    ensures OneEntryEach(st, comps) ==> OneEntryEach(NextState(st, update), comps)
    ensures ContingentDue(st) || ScheduledDue(st) ==> Less(NextState(st, update).currentTime, st.endTime)
  {
    if ContingentDue(st) {
      ContingentStepSpec(st, comps, update);
    } else if ScheduledDue(st) {
      ScheduledStepSpec(st, comps, update);
    }
  }

  /** No scheduled entry lies before the current time. */
  ghost predicate NotBehind(st: SimState)
  {
    forall e :: e in st.scheduled ==> LessEq(st.currentTime, e.time)
  }

  /** Components never ask to be valid until a time before their update. */
  ghost predicate Advancing(comps: seq<Comp>, update: (Comp, Time) -> Update)
  {
    forall c, t: Time :: c in comps && !t.NotADateTime? ==> LessEq(t, update(c, t).validUntil)
  }

  lemma LessEqTransitive(a: Time, b: Time, c: Time)
    requires LessEq(a, b) && LessEq(b, c)
    ensures LessEq(a, c)
  {
    LessStrictOrder(a, b, c);
  }

  /** When components never schedule into the past, the clock never runs
      backwards and no scheduled entry falls behind it. */
  lemma NextStateClockMonotone(st: SimState, comps: seq<Comp>, update: (Comp, Time) -> Update)
    requires Consistent(st, comps) && KeyInjective(comps) && BehaviourOk(comps, update)
    requires Advancing(comps, update) && NotBehind(st)
    ensures LessEq(st.currentTime, NextState(st, update).currentTime)
    ensures NotBehind(NextState(st, update))
  {
    var r := NextState(st, update);
    if ContingentDue(st) {
      ContingentStepSpec(st, comps, update);
      var c := st.contingent[0];
      assert st.contingent[0] in st.contingent;
      forall e | e in r.scheduled ensures LessEq(r.currentTime, e.time) {
        if e.comp != c {
          assert e in st.scheduled;
        }
      }
    } else if ScheduledDue(st) {
      ScheduledStepSpec(st, comps, update);
      var e0 := st.scheduled[0];
      assert e0 in st.scheduled;
      forall e | e in r.scheduled ensures LessEq(r.currentTime, e.time) {
        if e.comp != e0.comp {
          assert e in st.scheduled;
          var k :| 0 <= k < |st.scheduled| && st.scheduled[k] == e;
          assert k != 0;
          LessStrictOrder(e0.time, e.time, e.time);
        }
      }
    }
  }

  /** The state after n calls of `doNextUpdate`. */
  function Steps(st: SimState, update: (Comp, Time) -> Update, n: nat): SimState
  {
    if n == 0 then st else NextState(Steps(st, update, n - 1), update)
  }

  /** Any number of updates keeps the state consistent, every component
      scheduled and the end time fixed; when components never schedule into
      the past the clock has not moved backwards and nothing falls behind
      it. */
  lemma {:induction false} StepsPreserve(st: SimState, comps: seq<Comp>, update: (Comp, Time) -> Update, n: nat)
    requires Consistent(st, comps) && KeyInjective(comps) && BehaviourOk(comps, update)
    ensures Consistent(Steps(st, update, n), comps)
    ensures OneEntryEach(st, comps) ==> OneEntryEach(Steps(st, update, n), comps)
    ensures Steps(st, update, n).endTime == st.endTime
    ensures Advancing(comps, update) && NotBehind(st) ==>
              LessEq(st.currentTime, Steps(st, update, n).currentTime) && NotBehind(Steps(st, update, n))
  {
    if n > 0 {
      StepsPreserve(st, comps, update, n - 1);
      var p := Steps(st, update, n - 1);
      NextStatePreserves(p, comps, update);
      if Advancing(comps, update) && NotBehind(st) {
        NextStateClockMonotone(p, comps, update);
        LessEqTransitive(st.currentTime, p.currentTime, Steps(st, update, n).currentTime);
      }
    }
  }

  /** The scheduled set `initialize` builds: each component, in the model's
      order, inserted at the time it asks to start at. */
  function StartSchedule(comps: seq<Comp>, start: (Comp, Time) -> Time, t0: Time): seq<Entry>
  {
    if |comps| == 0 then []
    else
      var c := comps[|comps| - 1];
      InsertS(StartSchedule(comps[..|comps| - 1], start, t0), Entry(c, start(c, t0)))
  }

  /** The state `initialize` sets up before its first timestep: the clock
      at minus infinity, every component scheduled at its start time, no
      contingent updates. */
  function StartState(comps: seq<Comp>, start: (Comp, Time) -> Time, t0: Time, endTime: Time): SimState
  {
    SimState(NegInfin, endTime, StartSchedule(comps, start, t0), [])
  }

  // ---------------------------------------------------------------------
  // The simulation object

  class Simulation {
    /** The model's components, in the model's order. */
    const comps: seq<Comp>
    /** The time a component asks to start at once initialised at a time. */
    const start: (Comp, Time) -> Time
    /** What updating a component at a time does. */
    const update: (Comp, Time) -> Update

    var startTime: Time
    var endTime: Time
    var currentTime: Time
    var scheduled: seq<Entry>
    var contingent: seq<Comp>
    /** How often `timestepWillStart` and `timestepDidComplete` fired. */
    var willStartCount: nat
    var didCompleteCount: nat

    ghost function State(): SimState
      reads this
    {
      SimState(currentTime, endTime, scheduled, contingent)
    }

    ghost predicate Valid()
      reads this
    {
      KeyInjective(comps) && BehaviourOk(comps, update)
      && (forall c, t :: c in comps ==> !start(c, t).NotADateTime?)
      && Consistent(State(), comps)
    }

    /** A new simulation: no start or end time yet, current time minus
        infinity, nothing scheduled. */
    constructor(comps: seq<Comp>, start: (Comp, Time) -> Time, update: (Comp, Time) -> Update)
      requires KeyInjective(comps) && BehaviourOk(comps, update)
      requires forall c, t :: c in comps ==> !start(c, t).NotADateTime?
      ensures Valid()
      ensures this.comps == comps && this.start == start && this.update == update
      ensures startTime == NotADateTime && endTime == NotADateTime && currentTime == NegInfin
      ensures scheduled == [] && contingent == []
      ensures willStartCount == 0 && didCompleteCount == 0
    {
      this.comps := comps;
      this.start := start;
      this.update := update;
      startTime := NotADateTime;
      endTime := NotADateTime;
      currentTime := NegInfin;
      scheduled := [];
      contingent := [];
      willStartCount := 0;
      didCompleteCount := 0;
    }

    method SetStartTime(t: Time)
      modifies this
      ensures startTime == t
      ensures endTime == old(endTime) && currentTime == old(currentTime)
      ensures scheduled == old(scheduled) && contingent == old(contingent)
      ensures willStartCount == old(willStartCount) && didCompleteCount == old(didCompleteCount)
    {
      startTime := t;
    }

    method SetEndTime(t: Time)
      requires Valid()
      modifies this
      ensures Valid()
      ensures endTime == t
      ensures startTime == old(startTime) && currentTime == old(currentTime)
      ensures scheduled == old(scheduled) && contingent == old(contingent)
      ensures willStartCount == old(willStartCount) && didCompleteCount == old(didCompleteCount)
    {
      endTime := t;
    }

    /** The first part of `initialize`: every component scheduled once at
        its start time, no contingent updates, the clock at minus
        infinity. */
    method ScheduleStart()
      requires Valid()
      modifies this
      ensures Valid() && OneEntryEach(State(), comps)
      ensures forall e :: e in scheduled <==> e.comp in comps && e.time == start(e.comp, startTime)
      ensures contingent == [] && currentTime == NegInfin
      ensures startTime == old(startTime) && endTime == old(endTime)
      ensures willStartCount == old(willStartCount) && didCompleteCount == old(didCompleteCount)
      ensures State() == StartState(comps, start, startTime, endTime)
    {
      var s: seq<Entry> := [];
      var i := 0;
      while i < |comps|
        invariant 0 <= i <= |comps|
        invariant SortedS(s) && DistinctComps(s)
        invariant forall e :: e in s <==> e.comp in comps[..i] && e.time == start(e.comp, startTime)
        invariant s == StartSchedule(comps[..i], start, startTime)
        invariant unchanged(this)
      {
        assert comps[..i + 1][..i] == comps[..i];
        ScheduleOne(s, comps, i, start, startTime);
        s := InsertS(s, Entry(comps[i], start(comps[i], startTime)));
        i := i + 1;
      }
      assert comps[..i] == comps;
      scheduled := s;
      currentTime := NegInfin;
      contingent := [];
      forall c | c in comps ensures exists e :: e in scheduled && e.comp == c {
        assert Entry(c, start(c, startTime)) in scheduled;
      }
    }

    /** `initialize`: schedule every component at the start time, clear the
        contingent updates, and run the first timestep from there (`steps`
        passes of its loop after the first update). */
    method Initialize(fuel: nat) returns (result: bool, steps: nat)
      requires Valid()
      modifies this
      ensures Valid() && OneEntryEach(State(), comps)
      ensures startTime == old(startTime) && endTime == old(endTime)
      ensures steps <= fuel && State() == Steps(StartState(comps, start, startTime, endTime), update, steps + 1)
      ensures result && steps < fuel ==>
                !WorkRemains(State(), NextState(StartState(comps, start, startTime, endTime), update).currentTime)
    {
      ScheduleStart();
      var timeToComplete;
      result, timeToComplete, steps := DoTimestep(fuel);
    }

    /** The erase loop: find the component's scheduled entry and erase it. */
    method EraseScheduled(c: Comp)
      modifies this
      ensures scheduled == RemoveComp(old(scheduled), c)
      ensures currentTime == old(currentTime) && endTime == old(endTime) && startTime == old(startTime)
      ensures contingent == old(contingent)
      ensures willStartCount == old(willStartCount) && didCompleteCount == old(didCompleteCount)
    {
      scheduled := EraseFirst(scheduled, c);
    }

    /** The contingent branch of `doNextUpdate`. */
    method ContingentUpdate()
      requires |contingent| > 0
      modifies this
      ensures State() == ContingentStep(old(State()), update)
      ensures startTime == old(startTime)
      ensures willStartCount == old(willStartCount) && didCompleteCount == old(didCompleteCount)
    {
      var contComp := contingent[0];
      contingent := contingent[1..];
      EraseScheduled(contComp);
      var u := update(contComp, currentTime);
      contingent := InsertAllC(contingent, u.triggers);
      scheduled := InsertS(scheduled, Entry(contComp, u.validUntil));
    }

    /** The scheduled branch of `doNextUpdate`; the timestep-will-start event
        fires when the clock moves forward. */
    method ScheduledUpdate()
      requires |scheduled| > 0
      modifies this
      ensures State() == ScheduledStep(old(State()), update)
      ensures startTime == old(startTime) && didCompleteCount == old(didCompleteCount)
      ensures willStartCount == old(willStartCount)
        + (if Less(old(currentTime), old(scheduled[0].time)) then 1 else 0)
    {
      var schedComp := scheduled[0].comp;
      var nextSchedTime := scheduled[0].time;
      if Less(currentTime, nextSchedTime) {
        willStartCount := willStartCount + 1;
      }
      currentTime := nextSchedTime;
      scheduled := scheduled[1..];
      contingent := EraseC(contingent, schedComp);
      var u := update(schedComp, currentTime);
      contingent := InsertAllC(contingent, u.triggers);
      scheduled := InsertS(scheduled, Entry(schedComp, u.validUntil));
    }

    /** `doNextUpdate`: perform the contingent update or the scheduled update
        that is due, if any, and report whether one was performed. */
    method DoNextUpdate() returns (result: bool)
      requires Valid()
      modifies this
      ensures Valid()
      ensures State() == NextState(old(State()), update)
      ensures result <==> old(ContingentDue(State()) || ScheduledDue(State()))
      ensures OneEntryEach(old(State()), comps) ==> OneEntryEach(State(), comps)
      ensures startTime == old(startTime)
      ensures willStartCount == old(willStartCount)
        + (if old(ScheduledDue(State())) && Less(old(currentTime), old(NextSchedTime(State()))) then 1 else 0)
      ensures didCompleteCount == old(didCompleteCount) + (if StepCompleted(State()) then 1 else 0)
    {
      ghost var st0 := State();
      NextStatePreserves(st0, comps, update);
      result := false;
      var nextSchedTime := PosInfin;
      if |scheduled| > 0 {
        nextSchedTime := scheduled[0].time;
      }
      if Less(currentTime, nextSchedTime) && |contingent| > 0 && Less(currentTime, endTime) {
        ContingentUpdate();
        result := true;
      } else if |scheduled| > 0 && Less(nextSchedTime, endTime) {
        ScheduledUpdate();
        result := true;
      }
      if |contingent| == 0 && (|scheduled| == 0 || Less(currentTime, scheduled[0].time)) {
        didCompleteCount := didCompleteCount + 1;
      }
    }

    /** `doTimestep`: one update, then updates while they succeed and work
        is left at the time being completed. The loop is bounded by `fuel`;
        when it stops early for want of fuel, `steps == fuel`. */
    method DoTimestep(fuel: nat) returns (result: bool, timeToComplete: Time, steps: nat)
      requires Valid()
      modifies this
      ensures Valid()
      ensures OneEntryEach(old(State()), comps) ==> OneEntryEach(State(), comps)
      ensures startTime == old(startTime) && endTime == old(endTime)
      ensures timeToComplete ==
                if old(currentTime) == NegInfin then NextState(old(State()), update).currentTime else old(currentTime)
      ensures steps <= fuel && State() == Steps(old(State()), update, steps + 1)
      ensures result && steps < fuel ==> !WorkRemains(State(), timeToComplete)
    {
      ghost var st0 := State();
      var time1 := currentTime;
      result := DoNextUpdate();
      assert State() == Steps(st0, update, 1);
      var time2 := currentTime;
      timeToComplete := if time1 == NegInfin then time2 else time1;
      steps := 0;
      while result && (|contingent| > 0 || (|scheduled| > 0 && scheduled[0].time == timeToComplete)) && steps < fuel
        invariant Valid() && steps <= fuel
        invariant OneEntryEach(old(State()), comps) ==> OneEntryEach(State(), comps)
        invariant startTime == old(startTime) && endTime == old(endTime)
        invariant State() == Steps(st0, update, steps + 1)
        decreases fuel - steps
      {
        ghost var before := State();
        result := DoNextUpdate();
        assert State() == NextState(before, update);
        steps := steps + 1;
      }
    }
  }
}
