/**
 The observer registry: registration, removal and re-entrant dispatch. Filters and
 callbacks, and other threads, may register and remove observers at any point, also
 between the two atomic halves of a registration.
 */
module EventDispatch {
  import opened Options

  // ----------------------------------------------------------------- registry

  /** Identity of a shared closure. */
  type Closure = nat

  /** One registered observer. */
  datatype Entry = Entry(id: nat, callback: Closure, filter: Option<Closure>)

  /** `pending`: ids drawn from the counter by threads that have not pushed their
      entry yet. */
  datatype Registry = Registry(nextId: nat, entries: seq<Entry>, pending: map<int, nat>)

  datatype Action =
    | FetchId(thread: int)
    | PushEntry(thread: int, callback: Closure, filter: Option<Closure>)
    | Remove(id: nat)
    | Clear

  function Retain(entries: seq<Entry>, id: nat): (r: seq<Entry>)
    ensures forall e :: e in r <==> e in entries && e.id != id
  {
    if entries == [] then []
    else
      var init, last := entries[..|entries| - 1], entries[|entries| - 1];
      assert entries == init + [last];
      if last.id == id then Retain(init, id) else Retain(init, id) + [last]
  }

  function Step(r: Registry, a: Action): Registry {
    match a
    case FetchId(t) =>
      if t in r.pending then r else r.(nextId := r.nextId + 1, pending := r.pending[t := r.nextId])
    case PushEntry(t, cb, f) =>
      if t !in r.pending then r
      else r.(entries := r.entries + [Entry(r.pending[t], cb, f)], pending := r.pending - {t})
    case Remove(id) => r.(entries := Retain(r.entries, id))
    case Clear => r.(entries := [])
  }

  /** What `remove` answers: whether the list got shorter. */
  predicate Removed(r: Registry, id: nat) {
    |Retain(r.entries, id)| != |r.entries|
  }

  function Run(r: Registry, acts: seq<Action>): Registry {
    if acts == [] then r else Step(Run(r, acts[..|acts| - 1]), acts[|acts| - 1])
  }

  function New(): Registry {
    Registry(1, [], map[])
  }

  /** Every id in use is below the counter and used once, as an entry or pending. */
  ghost predicate Inv(r: Registry) {
    && (forall i :: 0 <= i < |r.entries| ==> r.entries[i].id < r.nextId)
    && (forall t :: t in r.pending ==> r.pending[t] < r.nextId)
    && DistinctIds(r.entries)
    && (forall t, u :: t in r.pending && u in r.pending && t != u ==> r.pending[t] != r.pending[u])
    && (forall i, t :: 0 <= i < |r.entries| && t in r.pending ==> r.entries[i].id != r.pending[t])
  }

  predicate Registered(r: Registry, id: nat) {
    HasId(r.entries, id)
  }

  /** The id was issued and can never be registered again. */
  ghost predicate Retired(r: Registry, id: nat) {
    id < r.nextId && !Registered(r, id) && forall t :: t in r.pending ==> r.pending[t] != id
  }

  ghost predicate DistinctIds(entries: seq<Entry>) {
    forall i, j :: 0 <= i < j < |entries| ==> entries[i].id != entries[j].id
  }

  lemma {:induction false} RetainKeepsDistinct(entries: seq<Entry>, id: nat)
    requires DistinctIds(entries)
    ensures DistinctIds(Retain(entries, id))
    decreases |entries|
  {
    if entries != [] {
      var init, last := entries[..|entries| - 1], entries[|entries| - 1];
      RetainKeepsDistinct(init, id);
      var r := Retain(init, id);
      hide Retain;
      forall i | 0 <= i < |r| ensures r[i].id != last.id {
        assert r[i] in r;
        assert r[i] in init;
      }
    }
  }

  /** The list gets shorter exactly when the id was in it. */
  lemma {:induction false} RetainCounts(entries: seq<Entry>, id: nat)
    ensures |Retain(entries, id)| <= |entries|
    ensures |Retain(entries, id)| != |entries| <==> HasId(entries, id)
    decreases |entries|
  {
    if entries != [] {
      var n := |entries| - 1;
      RetainCounts(entries[..n], id);
      HasIdSnoc(entries, id);
      hide HasId;
    }
  }

  predicate HasId(entries: seq<Entry>, id: nat) {
    exists i :: 0 <= i < |entries| && entries[i].id == id
  }

  lemma HasIdSnoc(entries: seq<Entry>, id: nat)
    requires entries != []
    ensures var n := |entries| - 1; HasId(entries, id) <==> HasId(entries[..n], id) || entries[n].id == id
  {
    var n := |entries| - 1;
    if i :| 0 <= i < n && entries[..n][i].id == id {
      assert entries[i].id == id;
    }
    if i :| 0 <= i < n && entries[i].id == id {
      assert entries[..n][i].id == id;
    }
  }

  lemma {:induction false} RetainNone(entries: seq<Entry>, id: nat)
    requires !HasId(entries, id)
    ensures Retain(entries, id) == entries
    decreases |entries|
  {
    if entries != [] {
      HasIdSnoc(entries, id);
      RetainNone(entries[..|entries| - 1], id);
    }
  }

  /** The entry is cut out, and the others stay in their order. */
  lemma {:induction false} RetainAt(entries: seq<Entry>, id: nat, k: nat)
    requires DistinctIds(entries) && k < |entries| && entries[k].id == id
    ensures Retain(entries, id) == entries[..k] + entries[k + 1..]
    decreases |entries|
  {
    var n := |entries| - 1;
    var init := entries[..n];
    assert Retain(entries, id) ==
           if entries[n].id == id then Retain(init, id) else Retain(init, id) + [entries[n]];
    hide Retain;
    if k == n {
      RetainNone(init, id);
      assert entries[n + 1..] == [];
    } else {
      RetainAt(init, id, k);
      CutSnoc(entries, k);
    }
  }

  lemma CutSnoc(entries: seq<Entry>, k: nat)
    requires k + 1 < |entries|
    ensures var n := |entries| - 1;
            entries[..n][..k] + entries[..n][k + 1..] + [entries[n]] == entries[..k] + entries[k + 1..]
  {
  }

  /** The registry without the entry at `k`; the others keep their order. */
  function Without(r: Registry, k: nat): Registry
    requires k < |r.entries|
  {
    r.(entries := r.entries[..k] + r.entries[k + 1..])
  }

  lemma RetainKeepsOrder(entries: seq<Entry>, id: nat)
    requires DistinctIds(entries)
    ensures var r := Retain(entries, id);
            && DistinctIds(r) && |r| <= |entries|
            && (|r| != |entries| <==> HasId(entries, id))
  {
    RetainKeepsDistinct(entries, id);
    RetainCounts(entries, id);
  }

  lemma StepInv(r: Registry, a: Action)
    requires Inv(r)
    ensures Inv(Step(r, a)) && r.nextId <= Step(r, a).nextId
  {
    if a.Remove? {
      RetainKeepsOrder(r.entries, a.id);
      var kept := Retain(r.entries, a.id);
      assert forall i :: 0 <= i < |kept| ==> kept[i] in kept;
      assert forall i :: 0 <= i < |kept| ==> kept[i] in r.entries;
    }
  }

  lemma {:induction false} RunInv(r: Registry, acts: seq<Action>)
    requires Inv(r)
    ensures Inv(Run(r, acts)) && r.nextId <= Run(r, acts).nextId
    decreases |acts|
  {
    if acts != [] {
      RunInv(r, acts[..|acts| - 1]);
      StepInv(Run(r, acts[..|acts| - 1]), acts[|acts| - 1]);
    }
  }

  lemma StepRetired(r: Registry, a: Action, id: nat)
    requires Inv(r) && Retired(r, id)
    ensures Retired(Step(r, a), id)
  {
    if a.Remove? {
      var kept := Retain(r.entries, a.id);
      assert forall i :: 0 <= i < |kept| ==> kept[i] in kept;
      assert forall i :: 0 <= i < |kept| ==> kept[i] in r.entries;
    }
  }

  lemma {:induction false} RunRetired(r: Registry, acts: seq<Action>, id: nat)
    requires Inv(r) && Retired(r, id)
    ensures Retired(Run(r, acts), id)
    decreases |acts|
  {
    if acts != [] {
      var init := acts[..|acts| - 1];
      RunRetired(r, init, id);
      RunInv(r, init);
      StepRetired(Run(r, init), acts[|acts| - 1], id);
    }
  }

  /** `remove` answers true exactly for a registered id, takes out exactly that
      observer, and retires its id for good: whatever happens next, the id is never
      registered again and `remove` never again answers true for it. */
  lemma RemoveOnce(r: Registry, id: nat, later: seq<Action>)
    requires Inv(r)
    ensures Removed(r, id) <==> Registered(r, id)
    ensures !Registered(r, id) ==> Step(r, Remove(id)) == r
    ensures forall k :: 0 <= k < |r.entries| && r.entries[k].id == id ==> Step(r, Remove(id)) == Without(r, k)
    ensures Removed(r, id) ==>
              var s := Run(Step(r, Remove(id)), later); !Registered(s, id) && !Removed(s, id)
  {
    RetainKeepsOrder(r.entries, id);
    if !Registered(r, id) {
      RetainNone(r.entries, id);
    }
    forall k | 0 <= k < |r.entries| && r.entries[k].id == id ensures Step(r, Remove(id)) == Without(r, k) {
      RetainAt(r.entries, id, k);
    }
    if Removed(r, id) {
      var s := Step(r, Remove(id));
      var k :| 0 <= k < |r.entries| && r.entries[k].id == id;
      assert forall i :: 0 <= i < |s.entries| ==> s.entries[i] in s.entries;
      StepInv(r, Remove(id));
      RunRetired(s, later, id);
      RunInv(s, later);
      RetainKeepsOrder(Run(s, later).entries, id);
    }
  }

  /** An id drawn from the counter differs from every id drawn later, in every
      interleaving. */
  lemma IdsNeverReused(r: Registry, t: int, between: seq<Action>, u: int)
    requires Inv(r) && t !in r.pending
    requires var s := Run(Step(r, FetchId(t)), between); u !in s.pending
    ensures var s := Run(Step(r, FetchId(t)), between);
            Step(r, FetchId(t)).pending[t] < Step(s, FetchId(u)).pending[u]
  {
    StepInv(r, FetchId(t));
    RunInv(Step(r, FetchId(t)), between);
  }

  // ----------------------------------------------------------------- dispatch

  datatype Verdict = Matched | Skip | Panicked

  /** What running one observer's filter and callback did. `filterActions` and
      `callbackActions` are the registry actions, of this and of any other thread,
      that took place meanwhile. */
  datatype Reaction = Reaction(
    verdict: Verdict, filterActions: seq<Action>,
    panics: bool, callbackActions: seq<Action>)

  /** Observers may behave differently on every visit and in every registry. */
  type Behaviour = (nat, Entry, Registry) -> Reaction

  datatype Outcome = Outcome(delivered: nat, skipped: nat, panics: nat)

  datatype Visit = Visit(observer: Entry, verdict: Verdict, invoked: bool, panicked: bool)

  /** `eval_filter`: an observer without a filter always matches. */
  function EvalFilter(e: Entry, x: Reaction): Verdict {
    if e.filter.None? then Matched else x.verdict
  }

  /** Observers visited so far and the registry they left behind. */
  datatype Progress = Progress(registry: Registry, visits: seq<Visit>, acts: seq<Action>)

  /** The registry actions during one visit: those of the filter, if there is one,
      then those of the callback, if it runs. */
  function ActionsOf(e: Entry, x: Reaction): seq<Action> {
    (if e.filter.Some? then x.filterActions else []) + (if EvalFilter(e, x).Matched? then x.callbackActions else [])
  }

  function VisitOf(e: Entry, x: Reaction): Visit {
    var verdict := EvalFilter(e, x);
    Visit(e, verdict, verdict.Matched?, verdict.Matched? && x.panics)
  }

  /** The first `n` observers of a snapshot visited one after the other. */
  function VisitAll(behaviour: Behaviour, snapshot: seq<Entry>, r: Registry, n: nat): Progress
    requires n <= |snapshot|
  {
    if n == 0 then Progress(r, [], [])
    else
      var p := VisitAll(behaviour, snapshot, r, n - 1);
      var e := snapshot[n - 1];
      var x := behaviour(n - 1, e, p.registry);
      Progress(Run(p.registry, ActionsOf(e, x)), p.visits + [VisitOf(e, x)], p.acts + ActionsOf(e, x))
  }

  /** What the visit of an observer must have been, given what its filter and its callback do. */
  ghost predicate Reacted(v: Visit, e: Entry, x: Reaction) {
    && v.observer == e
    && (v.invoked <==> e.filter == None || x.verdict == Matched)
    && (v.verdict == Panicked <==> e.filter != None && x.verdict == Panicked)
    && (v.panicked <==> v.invoked && x.panics)
  }

  /** The registry actions that the visit adds: the filter's, then the callback's if it ran. */
  ghost predicate Adds(acts: seq<Action>, more: seq<Action>, v: Visit, x: Reaction) {
    && (v.observer.filter == None && !v.invoked ==> more == acts)
    && (v.observer.filter == None && v.invoked ==> more == acts + x.callbackActions)
    && (v.observer.filter != None && !v.invoked ==> more == acts + x.filterActions)
    && (v.observer.filter != None && v.invoked ==> more == acts + (x.filterActions + x.callbackActions))
  }

  /** Visit `i` as the observer's behaviour in the registry it finds demands it. */
  ghost predicate Faithful(behaviour: Behaviour, snapshot: seq<Entry>, r: Registry, i: nat)
    requires i < |snapshot|
  {
    var before, after := VisitAll(behaviour, snapshot, r, i), VisitAll(behaviour, snapshot, r, i + 1);
    var x := behaviour(i, snapshot[i], before.registry);
    && |before.visits| == i && |after.visits| == i + 1 && before.visits == after.visits[..i]
    && Reacted(after.visits[i], snapshot[i], x)
    && Adds(before.acts, after.acts, after.visits[i], x)
  }

  lemma VisitIsFaithful(behaviour: Behaviour, snapshot: seq<Entry>, r: Registry, i: nat)
    requires i < |snapshot| && |VisitAll(behaviour, snapshot, r, i).visits| == i
    ensures Faithful(behaviour, snapshot, r, i)
  {
    hide Run;
    var before := VisitAll(behaviour, snapshot, r, i);
    var x := behaviour(i, snapshot[i], before.registry);
    NothingAdded(x.filterActions);
    NothingAdded(x.callbackActions);
    NothingAdded(before.acts);
  }

  lemma NothingAdded(acts: seq<Action>)
    ensures acts + [] == acts && [] + acts == acts
  {
  }

  /** Whatever the observers do, the snapshot is visited completely, in order and once,
      each visit is the one its observer's behaviour demands, and the registry is left as
      the actions taken meanwhile leave it. */
  lemma {:induction false} VisitsAreTheSnapshot(behaviour: Behaviour, snapshot: seq<Entry>, r: Registry, n: nat)
    requires n <= |snapshot| && Inv(r)
    ensures var p := VisitAll(behaviour, snapshot, r, n);
            && |p.visits| == n
            && (forall i :: 0 <= i < n ==> Faithful(behaviour, snapshot, r, i))
            && p.registry == Run(r, p.acts)
            && Inv(p.registry)
  {
    hide Run, Inv;
    if n > 0 {
      VisitsAreTheSnapshot(behaviour, snapshot, r, n - 1);
      var p := VisitAll(behaviour, snapshot, r, n - 1);
      var acts := ActionsOf(snapshot[n - 1], behaviour(n - 1, snapshot[n - 1], p.registry));
      VisitIsFaithful(behaviour, snapshot, r, n - 1);
      RunConcat(r, p.acts, acts);
      RunInv(p.registry, acts);
      hide Faithful;
    } else {
      RunNothing(r);
    }
  }

  // ------------------------------------------------------------------ counting

  ghost function Delivered(vs: seq<Visit>): set<nat> {
    set i: nat | i < |vs| && vs[i].invoked && !vs[i].panicked
  }

  ghost function NotInvoked(vs: seq<Visit>): set<nat> {
    set i: nat | i < |vs| && !vs[i].invoked
  }

  ghost function CallbackPanics(vs: seq<Visit>): set<nat> {
    set i: nat | i < |vs| && vs[i].panicked
  }

  ghost function FilterPanics(vs: seq<Visit>): set<nat> {
    set i: nat | i < |vs| && vs[i].verdict == Panicked
  }

  /** The counters are the numbers of visits of each sort. */
  ghost predicate Counts(o: Outcome, vs: seq<Visit>) {
    && o.delivered == |Delivered(vs)|
    && o.skipped == |NotInvoked(vs)|
    && o.panics == |CallbackPanics(vs)| + |FilterPanics(vs)|
  }

  lemma OneMore(a: set<nat>, b: set<nat>, i: nat, member: bool)
    requires i !in a && b == if member then a + {i} else a
    ensures |b| == |a| + if member then 1 else 0
  {
  }

  lemma DeliveredSnoc(vs: seq<Visit>, v: Visit)
    ensures |Delivered(vs + [v])| == |Delivered(vs)| + if v.invoked && !v.panicked then 1 else 0
  {
    OneMore(Delivered(vs), Delivered(vs + [v]), |vs|, v.invoked && !v.panicked);
  }

  lemma NotInvokedSnoc(vs: seq<Visit>, v: Visit)
    ensures |NotInvoked(vs + [v])| == |NotInvoked(vs)| + if v.invoked then 0 else 1
  {
    OneMore(NotInvoked(vs), NotInvoked(vs + [v]), |vs|, !v.invoked);
  }

  lemma CallbackPanicsSnoc(vs: seq<Visit>, v: Visit)
    ensures |CallbackPanics(vs + [v])| == |CallbackPanics(vs)| + if v.panicked then 1 else 0
  {
    OneMore(CallbackPanics(vs), CallbackPanics(vs + [v]), |vs|, v.panicked);
  }

  lemma FilterPanicsSnoc(vs: seq<Visit>, v: Visit)
    ensures |FilterPanics(vs + [v])| == |FilterPanics(vs)| + if v.verdict == Panicked then 1 else 0
  {
    OneMore(FilterPanics(vs), FilterPanics(vs + [v]), |vs|, v.verdict == Panicked);
  }

  lemma NoneCounted()
    ensures Counts(Outcome(0, 0, 0), [])
  {
  }

  /** How the counters have to change when a visit is added. */
  lemma CountsMore(o: Outcome, more: Outcome, vs: seq<Visit>, v: Visit)
    requires Counts(o, vs)
    requires more.delivered == o.delivered + if v.invoked && !v.panicked then 1 else 0
    requires more.skipped == o.skipped + if v.invoked then 0 else 1
    requires more.panics == o.panics + (if v.panicked then 1 else 0) + (if v.verdict == Panicked then 1 else 0)
    ensures Counts(more, vs + [v])
  {
    DeliveredSnoc(vs, v);
    NotInvokedSnoc(vs, v);
    CallbackPanicsSnoc(vs, v);
    FilterPanicsSnoc(vs, v);
    hide Delivered, NotInvoked, CallbackPanics, FilterPanics;
  }

  lemma CountsAre(o: Outcome, vs: seq<Visit>)
    requires Counts(o, vs)
    ensures o.delivered + o.skipped + o.panics
         == |Delivered(vs)| + |NotInvoked(vs)| + |CallbackPanics(vs)| + |FilterPanics(vs)|
  {
  }

  ghost predicate Sensible(v: Visit) {
    v.panicked ==> v.invoked
  }

  lemma {:induction false} EachCountedOnce(vs: seq<Visit>)
    requires forall i :: 0 <= i < |vs| ==> Sensible(vs[i])
    ensures |Delivered(vs)| + |NotInvoked(vs)| + |CallbackPanics(vs)| == |vs|
    decreases |vs|
  {
    if vs == [] {
      NoneCounted();
    } else {
      var n := |vs| - 1;
      EachCountedOnce(vs[..n]);
      DeliveredSnoc(vs[..n], vs[n]);
      NotInvokedSnoc(vs[..n], vs[n]);
      CallbackPanicsSnoc(vs[..n], vs[n]);
      hide Delivered, NotInvoked, CallbackPanics;
      assert vs == vs[..n] + [vs[n]];
    }
  }

  lemma {:induction false} VisitsAreSensible(behaviour: Behaviour, snapshot: seq<Entry>, r: Registry, n: nat)
    requires n <= |snapshot|
    ensures forall v :: v in VisitAll(behaviour, snapshot, r, n).visits ==> Sensible(v)
  {
    hide Run;
    if n > 0 {
      VisitsAreSensible(behaviour, snapshot, r, n - 1);
    }
  }

  class EventSubscriptions {
    var registry: Registry

    ghost predicate Valid()
      reads this
    {
      Inv(registry)
    }

    constructor ()
      ensures Valid() && registry.entries == [] && registry.nextId == 1 && registry.pending == map[]
    {
      registry := New();
    }

    method Perform(acts: seq<Action>)
      requires Valid()
      modifies this
      ensures Valid() && registry == Run(old(registry), acts)
    {
      RunInv(registry, acts);
      for i := 0 to |acts|
        invariant registry == Run(old(registry), acts[..i])
      {
        assert acts[..i + 1][..i] == acts[..i];
        registry := Step(registry, acts[i]);
      }
      assert acts[..|acts|] == acts;
    }

    /** Registers an observer in one go on the calling thread. */
    method AddFiltered(thread: int, callback: Closure, filter: Option<Closure>) returns (id: nat)
      requires Valid() && thread !in registry.pending
      modifies this
      ensures Valid() && id == old(registry.nextId) && registry.nextId == id + 1
      ensures !old(Registered(registry, id))
      ensures registry.entries == old(registry.entries) + [Entry(id, callback, filter)]
      ensures registry.pending == old(registry.pending)
    {
      id := registry.nextId;
      StepInv(registry, FetchId(thread));
      registry := Step(registry, FetchId(thread));
      StepInv(registry, PushEntry(thread, callback, filter));
      registry := Step(registry, PushEntry(thread, callback, filter));
      assert registry.pending == old(registry.pending);
    }

    method RemoveId(id: nat) returns (present: bool)
      requires Valid()
      modifies this
      ensures Valid() && (present <==> old(Registered(registry, id)))
      ensures !present ==> registry == old(registry)
      ensures forall k :: 0 <= k < |old(registry.entries)| && old(registry.entries)[k].id == id ==>
                registry == Without(old(registry), k)
      ensures !Registered(registry, id)
    {
      RemoveOnce(registry, id, []);
      StepInv(registry, Remove(id));
      var before := |registry.entries|;
      registry := Step(registry, Remove(id));
      present := |registry.entries| != before;
      assert forall i :: 0 <= i < |registry.entries| ==> registry.entries[i] in registry.entries;
    }

    /** One observer: its filter, then its callback if the filter matched. */
    method RunObserver(item: Entry, x: Reaction) returns (verdict: Verdict)
      requires Valid()
      modifies this
      ensures Valid() && registry == Run(old(registry), ActionsOf(item, x))
      ensures verdict == EvalFilter(item, x)
    {
      verdict := EvalFilter(item, x);
      ghost var filtered := if item.filter.Some? then x.filterActions else [];
      if item.filter.Some? {
        Perform(x.filterActions);
      }
      if verdict.Matched? {
        RunConcat(old(registry), filtered, x.callbackActions);
        Perform(x.callbackActions);
      } else {
        assert filtered + [] == filtered;
      }
    }

    /** `dispatch_detailed`: visits the observers registered when it starts, once
        each and in order, whatever they do to the registry or whether they panic. */
    method DispatchDetailed(behaviour: Behaviour) returns (outcome: Outcome, ghost done: Progress)
      requires Valid()
      modifies this
      ensures done == VisitAll(behaviour, old(registry.entries), old(registry), |old(registry.entries)|)
      ensures Valid() && registry == done.registry
      ensures |done.visits| == |old(registry.entries)| && Counts(outcome, done.visits)
      ensures forall i :: 0 <= i < |done.visits| ==>
                Faithful(behaviour, old(registry.entries), old(registry), i)
      ensures outcome.delivered + outcome.skipped + outcome.panics
           == |old(registry.entries)| + |FilterPanics(done.visits)|
    {
      hide Run, Inv, Counts, Faithful;
      var snapshot := registry.entries;
      outcome := Outcome(0, 0, 0);
      done := Progress(registry, [], []);
      NoneCounted();
      for i := 0 to |snapshot|
        invariant Valid() && done == VisitAll(behaviour, snapshot, old(registry), i)
        invariant registry == done.registry && Counts(outcome, done.visits)
      {
        var item := snapshot[i];
        var x := behaviour(i, item, registry);
        var verdict := RunObserver(item, x);
        ghost var before := outcome;
        match verdict {
          case Skip =>
            outcome := outcome.(skipped := outcome.skipped + 1);
          case Panicked =>
            outcome := outcome.(panics := outcome.panics + 1, skipped := outcome.skipped + 1);
          case Matched =>
            if x.panics {
              outcome := outcome.(panics := outcome.panics + 1);
            } else {
              outcome := outcome.(delivered := outcome.delivered + 1);
            }
        }
        ghost var v, acts := VisitOf(item, x), ActionsOf(item, x);
        CountsMore(before, outcome, done.visits, v);
        done := Progress(registry, done.visits + [v], done.acts + acts);
      }
      VisitsAreTheSnapshot(behaviour, snapshot, old(registry), |snapshot|);
      VisitsAreSensible(behaviour, snapshot, old(registry), |snapshot|);
      EachCountedOnce(done.visits);
      CountsAre(outcome, done.visits);
    }

    /** `clear` */
    method RemoveAll()
      requires Valid()
      modifies this
      ensures Valid() && registry.entries == []
      ensures registry.nextId == old(registry.nextId) && registry.pending == old(registry.pending)
    {
      StepInv(registry, Clear);
      registry := Step(registry, Clear);
    }
  }

  lemma RunNothing(r: Registry)
    ensures Run(r, []) == r
  {
  }

  lemma {:induction false} RunConcat(r: Registry, xs: seq<Action>, ys: seq<Action>)
    ensures Run(r, xs + ys) == Run(Run(r, xs), ys)
    decreases |ys|
  {
    if ys == [] {
      assert xs + ys == xs;
    } else {
      assert (xs + ys)[..|xs + ys| - 1] == xs + ys[..|ys| - 1];
      RunConcat(r, xs, ys[..|ys| - 1]);
    }
  }
}
