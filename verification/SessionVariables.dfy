/**
 Session variables with a transaction overlay: a base map and a log of
 assignments, removals and savepoint markers. ROLLBACK TO writes undo values into
 the base map, so a partial rollback leaves uncommitted values there. The store is
 nevertheless proved to behave, over every run, like a stack of whole snapshots.
 */
module SessionVariables {
  import opened Options

  type Vars<V> = map<string, V>

  function Get<V>(m: Vars<V>, x: string): Option<V> {
    if x in m then Some(m[x]) else None
  }

  function Put<V>(m: Vars<V>, x: string, v: Option<V>): (r: Vars<V>)
    ensures forall y :: Get(r, y) == if y == x then v else Get(m, y)
  {
    if v.Some? then m[x := v.value] else m - {x}
  }

  lemma SameVars<V>(m: Vars<V>, n: Vars<V>)
    requires forall x :: Get(m, x) == Get(n, x)
    ensures m == n
  {
    assert forall x :: (x in m <==> Get(m, x).Some?) && (x in n <==> Get(n, x).Some?);
    assert forall x :: x in m ==> x in n && m[x] == n[x] by {
      forall x | x in m ensures x in n && m[x] == n[x] {
        assert Get(m, x) == Get(n, x);
      }
    }
    assert m.Keys == n.Keys;
  }

  // ---------------------------------------------------------------- the store

  datatype VariableOp<V> =
    | Set(name: string, prev: Option<V>, value: V)
    | Remove(name: string, prev: Option<V>)
    | Savepoint(name: string)

  type Log<V> = seq<VariableOp<V>>

  /** Value of the variable after the operation. */
  function After<V>(op: VariableOp<V>): Option<V>
    requires !op.Savepoint?
  {
    if op.Set? then Some(op.value) else None
  }

  function ApplyOp<V>(m: Vars<V>, op: VariableOp<V>): Vars<V> {
    if op.Savepoint? then m else Put(m, op.name, After(op))
  }

  /** The log replayed in order over a map. */
  function Apply<V>(m: Vars<V>, ops: Log<V>): Vars<V> {
    if ops == [] then m else ApplyOp(Apply(m, ops[..|ops| - 1]), ops[|ops| - 1])
  }

  function UndoOp<V>(m: Vars<V>, op: VariableOp<V>): Vars<V> {
    if op.Savepoint? then m else Put(m, op.name, op.prev)
  }

  /** The previous values of the log written back, latest entry first. */
  function Undo<V>(m: Vars<V>, ops: Log<V>): Vars<V>
    decreases |ops|
  {
    if ops == [] then m else Undo(UndoOp(m, ops[|ops| - 1]), ops[..|ops| - 1])
  }

  predicate Marks<V>(op: VariableOp<V>, n: string) {
    op.Savepoint? && op.name == n
  }

  predicate Writes<V>(op: VariableOp<V>, x: string) {
    !op.Savepoint? && op.name == x
  }

  predicate Touched<V>(ops: Log<V>, x: string) {
    exists i :: 0 <= i < |ops| && Writes(ops[i], x)
  }

  /** One past the latest marker with this name; 0 when there is none. */
  function MarkerEnd<V>(ops: Log<V>, n: string): (k: nat)
    ensures k <= |ops|
    ensures k > 0 ==> Marks(ops[k - 1], n)
    ensures forall i :: k <= i < |ops| ==> !Marks(ops[i], n)
  {
    if ops == [] then 0
    else if Marks(ops[|ops| - 1], n) then |ops|
    else MarkerEnd(ops[..|ops| - 1], n)
  }

  function DropMarkers<V>(ops: Log<V>, n: string): Log<V> {
    if ops == [] then []
    else
      var rest := DropMarkers(ops[..|ops| - 1], n);
      if Marks(ops[|ops| - 1], n) then rest else rest + [ops[|ops| - 1]]
  }

  /** Overlay first, latest entry first, then the base. */
  function Lookup<V>(base: Vars<V>, ops: Log<V>, x: string): Option<V> {
    if ops == [] then Get(base, x)
    else if Writes(ops[|ops| - 1], x) then After(ops[|ops| - 1])
    else Lookup(base, ops[..|ops| - 1], x)
  }

  datatype State<V> = State(base: Vars<V>, ops: Log<V>)

  datatype Command<V> =
    | SetVariable(name: string, value: V, inTransaction: bool)
    | RemoveVariable(name: string, inTransaction: bool)
    | PushSavepoint(name: string)
    | ReleaseSavepoint(name: string)
    | RollbackTo(name: string)
    | Commit
    | Rollback

  /** The state after a command. */
  function Exec<V>(s: State<V>, c: Command<V>): State<V> {
    match c
    case SetVariable(x, v, true) => s.(ops := s.ops + [Set(x, Lookup(s.base, s.ops, x), v)])
    case SetVariable(x, v, false) => s.(base := Put(s.base, x, Some(v)))
    case RemoveVariable(x, true) => s.(ops := s.ops + [Remove(x, Lookup(s.base, s.ops, x))])
    case RemoveVariable(x, false) => s.(base := Put(s.base, x, None))
    case PushSavepoint(n) => s.(ops := s.ops + [Savepoint(n)])
    case ReleaseSavepoint(n) => s.(ops := DropMarkers(s.ops, n))
    case RollbackTo(n) =>
      var k := MarkerEnd(s.ops, n);
      if k == 0 then s else State(Undo(s.base, s.ops[k..]), s.ops[..k])
    case Commit => State(Apply(s.base, s.ops), [])
    case Rollback => State(Undo(s.base, s.ops), [])
  }

  /** The boolean a command answers (`true` for those that answer nothing). */
  function Answer<V>(s: State<V>, c: Command<V>): bool {
    match c
    case RemoveVariable(x, true) => Lookup(s.base, s.ops, x).Some?
    case RemoveVariable(x, false) => x in s.base
    case RollbackTo(n) => MarkerEnd(s.ops, n) != 0
    case _ => true
  }

  function Run<V>(s: State<V>, cs: seq<Command<V>>): State<V> {
    if cs == [] then s else Exec(Run(s, cs[..|cs| - 1]), cs[|cs| - 1])
  }

  // --------------------------------------------- the stack of whole snapshots

  datatype Snapshot<V> = Snapshot(name: string, vars: Vars<V>)

  /** `start`: the map a full ROLLBACK returns to; `current`: the visible map;
      `stack`: the visible map at each surviving savepoint, oldest first. */
  datatype Spec<V> = Spec(start: Vars<V>, current: Vars<V>, stack: seq<Snapshot<V>>)

  function Latest<V>(stack: seq<Snapshot<V>>, n: string): (k: nat)
    ensures k <= |stack|
    ensures k > 0 ==> stack[k - 1].name == n
    ensures forall i :: k <= i < |stack| ==> stack[i].name != n
  {
    if stack == [] then 0
    else if stack[|stack| - 1].name == n then |stack|
    else Latest(stack[..|stack| - 1], n)
  }

  function Without<V>(stack: seq<Snapshot<V>>, n: string): seq<Snapshot<V>> {
    if stack == [] then []
    else
      var rest := Without(stack[..|stack| - 1], n);
      if stack[|stack| - 1].name == n then rest else rest + [stack[|stack| - 1]]
  }

  /** A write below the transaction reaches every snapshot. */
  function WriteAll<V>(stack: seq<Snapshot<V>>, x: string, v: Option<V>): seq<Snapshot<V>> {
    seq(|stack|, i requires 0 <= i < |stack| => Snapshot(stack[i].name, Put(stack[i].vars, x, v)))
  }

  function SpecStep<V>(p: Spec<V>, c: Command<V>): Spec<V> {
    match c
    case SetVariable(x, v, true) => p.(current := Put(p.current, x, Some(v)))
    case RemoveVariable(x, true) => p.(current := Put(p.current, x, None))
    case SetVariable(x, v, false) => WriteThrough(p, x, Some(v))
    case RemoveVariable(x, false) => WriteThrough(p, x, None)
    case PushSavepoint(n) => p.(stack := p.stack + [Snapshot(n, p.current)])
    case ReleaseSavepoint(n) => p.(stack := Without(p.stack, n))
    case RollbackTo(n) =>
      var k := Latest(p.stack, n);
      if k == 0 then p else p.(current := p.stack[k - 1].vars, stack := p.stack[..k])
    case Commit => Spec(p.current, p.current, [])
    case Rollback => Spec(p.start, p.start, [])
  }

  function WriteThrough<V>(p: Spec<V>, x: string, v: Option<V>): Spec<V> {
    Spec(Put(p.start, x, v), Put(p.current, x, v), WriteAll(p.stack, x, v))
  }

  function SpecAnswer<V>(p: Spec<V>, c: Command<V>): bool {
    match c
    case RemoveVariable(x, _) => x in p.current
    case RollbackTo(n) => Latest(p.stack, n) != 0
    case _ => true
  }

  /** A non-transactional write to a variable the open log has already written:
      the overlay shadows it now and overwrites it on COMMIT and ROLLBACK. */
  predicate Lost<V>(s: State<V>, c: Command<V>) {
    (c.SetVariable? || c.RemoveVariable?) && !c.inTransaction && Touched(s.ops, c.name)
  }

  /** The specification driven by the same commands, except the lost ones. */
  ghost function SpecRun<V>(s: State<V>, p: Spec<V>, cs: seq<Command<V>>): Spec<V> {
    if cs == [] then p
    else
      var n := |cs| - 1;
      var q := SpecRun(s, p, cs[..n]);
      if Lost(Run(s, cs[..n]), cs[n]) then q else SpecStep(q, cs[n])
  }

  // ------------------------------------------------------ the hidden invariant

  /** Every entry's `prev` is the value its variable had just before it, counted
      from the map at transaction start. */
  ghost predicate Coherent<V>(start: Vars<V>, ops: Log<V>) {
    forall i :: 0 <= i < |ops| && !ops[i].Savepoint? ==> ops[i].prev == Get(Apply(start, ops[..i]), ops[i].name)
  }

  /** The base may differ from the map at transaction start, but only on variables
      that still have a log entry. */
  ghost predicate Shadowed<V>(start: Vars<V>, s: State<V>) {
    forall x :: !Touched(s.ops, x) ==> Get(s.base, x) == Get(start, x)
  }

  ghost predicate Inv<V>(start: Vars<V>, s: State<V>) {
    Coherent(start, s.ops) && Shadowed(start, s)
  }

  /** The visible map at each marker of the log. */
  ghost function Snapshots<V>(start: Vars<V>, ops: Log<V>): seq<Snapshot<V>> {
    if ops == [] then []
    else
      var n := |ops| - 1;
      var rest := Snapshots(start, ops[..n]);
      if ops[n].Savepoint? then rest + [Snapshot(ops[n].name, Apply(start, ops[..n]))] else rest
  }

  ghost function Abstract<V>(start: Vars<V>, ops: Log<V>): Spec<V> {
    Spec(start, Apply(start, ops), Snapshots(start, ops))
  }

  // -------------------------------------------------------- what the log means

  lemma Untouched<V>(ops: Log<V>, x: string)
    requires ops != [] && !Touched(ops, x)
    ensures !Touched(ops[..|ops| - 1], x) && !Writes(ops[|ops| - 1], x)
  {
    var init := ops[..|ops| - 1];
    assert forall i :: 0 <= i < |init| ==> init[i] == ops[i];
  }

  /** A touched variable reads the same over any base. */
  lemma {:induction false} LookupSame<V>(m: Vars<V>, n: Vars<V>, ops: Log<V>, x: string)
    requires Touched(ops, x) || Get(m, x) == Get(n, x)
    ensures Lookup(m, ops, x) == Lookup(n, ops, x)
    ensures !Touched(ops, x) ==> Lookup(m, ops, x) == Get(m, x)
    decreases |ops|
  {
    if ops != [] && !Writes(ops[|ops| - 1], x) {
      var init := ops[..|ops| - 1];
      if Touched(ops, x) {
        var i :| 0 <= i < |ops| && Writes(ops[i], x);
        assert init[i] == ops[i];
      } else {
        Untouched(ops, x);
      }
      LookupSame(m, n, init, x);
    }
  }

  /** Scanning the log backwards agrees with replaying it forwards. */
  lemma {:induction false} LookupIsApply<V>(m: Vars<V>, ops: Log<V>, x: string)
    ensures Lookup(m, ops, x) == Get(Apply(m, ops), x)
    decreases |ops|
  {
    if ops != [] {
      LookupIsApply(m, ops[..|ops| - 1], x);
    }
  }

  /** What is visible over the base is what is visible over the starting map. */
  lemma VisibleFromStart<V>(start: Vars<V>, s: State<V>)
    requires Shadowed(start, s)
    ensures Apply(s.base, s.ops) == Apply(start, s.ops)
    ensures forall x :: Lookup(s.base, s.ops, x) == Get(Apply(start, s.ops), x)
  {
    forall x ensures Get(Apply(s.base, s.ops), x) == Get(Apply(start, s.ops), x)
                  && Lookup(s.base, s.ops, x) == Get(Apply(start, s.ops), x) {
      LookupIsApply(s.base, s.ops, x);
      LookupIsApply(start, s.ops, x);
      LookupSame(s.base, start, s.ops, x);
    }
    SameVars(Apply(s.base, s.ops), Apply(start, s.ops));
  }

  lemma CoherentPrefix<V>(start: Vars<V>, ops: Log<V>, k: nat)
    requires k <= |ops| && Coherent(start, ops)
    ensures Coherent(start, ops[..k])
  {
    forall i | 0 <= i < k ensures ops[..k][..i] == ops[..i] {
    }
  }

  lemma CoherentSnoc<V>(start: Vars<V>, ops: Log<V>, op: VariableOp<V>)
    requires Coherent(start, ops)
    requires op.Savepoint? || op.prev == Get(Apply(start, ops), op.name)
    ensures Coherent(start, ops + [op])
  {
    var all := ops + [op];
    forall i | 0 <= i < |all| ensures all[..i] == ops[..i] {
    }
    assert ops[..|ops|] == ops;
  }

  lemma Snoc<V>(start: Vars<V>, ops: Log<V>, op: VariableOp<V>)
    ensures Apply(start, ops + [op]) == ApplyOp(Apply(start, ops), op)
    ensures Snapshots(start, ops + [op]) ==
            Snapshots(start, ops) + (if op.Savepoint? then [Snapshot(op.name, Apply(start, ops))] else [])
    ensures forall x :: Touched(ops + [op], x) <==> Touched(ops, x) || Writes(op, x)
  {
    var all := ops + [op];
    assert all[..|all| - 1] == ops;
    forall x ensures Touched(all, x) <==> Touched(ops, x) || Writes(op, x) {
      assert Writes(op, x) ==> Writes(all[|ops|], x);
      assert forall i :: 0 <= i < |ops| ==> all[i] == ops[i];
    }
  }

  // ------------------------------------------------------------------ rollback

  /** Undoing the tail of the log leaves a base that is shadowed by what remains. */
  lemma {:induction false} UndoTail<V>(start: Vars<V>, base: Vars<V>, ops: Log<V>, k: nat)
    requires k <= |ops| && Inv(start, State(base, ops))
    ensures Inv(start, State(Undo(base, ops[k..]), ops[..k]))
    decreases |ops|
  {
    CoherentPrefix(start, ops, k);
    if k == |ops| {
      assert ops[..k] == ops && ops[k..] == [];
    } else {
      var n := |ops| - 1;
      var init, op := ops[..n], ops[n];
      assert init + [op] == ops;
      UndoLast(start, base, init, op);
      UndoTail(start, UndoOp(base, op), init, k);
      assert init[..k] == ops[..k];
      assert ops[k..][..|ops[k..]| - 1] == init[k..] && ops[k..][|ops[k..]| - 1] == op;
    }
  }

  lemma UndoLast<V>(start: Vars<V>, base: Vars<V>, init: Log<V>, op: VariableOp<V>)
    requires Inv(start, State(base, init + [op]))
    ensures Inv(start, State(UndoOp(base, op), init))
  {
    var ops := init + [op];
    assert ops[..|init|] == init && ops[|init|] == op;
    CoherentPrefix(start, ops, |init|);
    forall x | !Touched(init, x) ensures Get(UndoOp(base, op), x) == Get(start, x) {
      Snoc(start, init, op);
      LookupIsApply(start, init, x);
      LookupSame(start, start, init, x);
    }
  }

  lemma LatestSnoc<V>(stack: seq<Snapshot<V>>, top: Snapshot<V>, n: string)
    ensures Latest(stack + [top], n) == if top.name == n then |stack| + 1 else Latest(stack, n)
  {
    assert (stack + [top])[..|stack|] == stack;
  }

  /** The log up to `k` and the stack up to `j` describe the same moment. */
  ghost predicate SameMoment<V>(start: Vars<V>, ops: Log<V>, k: nat, j: nat) {
    && 0 < k <= |ops| && 0 < j <= |Snapshots(start, ops)|
    && Snapshots(start, ops[..k]) == Snapshots(start, ops)[..j]
    && Apply(start, ops[..k]) == Snapshots(start, ops)[j - 1].vars
  }

  lemma SameMomentSnoc<V>(start: Vars<V>, init: Log<V>, op: VariableOp<V>, k: nat, j: nat)
    requires SameMoment(start, init, k, j)
    ensures SameMoment(start, init + [op], k, j)
  {
    Snoc(start, init, op);
    assert (init + [op])[..k] == init[..k];
    assert Snapshots(start, init + [op])[..j] == Snapshots(start, init)[..j];
  }

  /** The latest marker in the log is the latest snapshot on the stack. */
  lemma {:induction false} MarkerIsLatest<V>(start: Vars<V>, ops: Log<V>, n: string)
    ensures var k, j := MarkerEnd(ops, n), Latest(Snapshots(start, ops), n);
            if k == 0 then j == 0 else SameMoment(start, ops, k, j)
    decreases |ops|
  {
    if ops != [] {
      var init, op := ops[..|ops| - 1], ops[|ops| - 1];
      assert ops == init + [op];
      var stack, k := Snapshots(start, init), MarkerEnd(init, n);
      Snoc(start, init, op);
      LatestSnoc(stack, Snapshot(op.name, Apply(start, init)), n);
      if Marks(op, n) {
        assert ops[..|ops|] == ops;
      } else {
        MarkerIsLatest(start, init, n);
        if k > 0 {
          SameMomentSnoc(start, init, op, k, Latest(stack, n));
        }
      }
    }
  }

  // ----------------------------------------------------------- release, writes

  lemma {:induction false} DropKeeps<V>(start: Vars<V>, ops: Log<V>, n: string)
    requires Coherent(start, ops)
    ensures Apply(start, DropMarkers(ops, n)) == Apply(start, ops)
    ensures Snapshots(start, DropMarkers(ops, n)) == Without(Snapshots(start, ops), n)
    ensures forall x :: Touched(DropMarkers(ops, n), x) <==> Touched(ops, x)
    ensures Coherent(start, DropMarkers(ops, n))
    decreases |ops|
  {
    if ops != [] {
      var m := |ops| - 1;
      var init, op := ops[..m], ops[m];
      assert init + [op] == ops;
      CoherentPrefix(start, ops, m);
      DropKeeps(start, init, n);
      Snoc(start, init, op);
      var rest := DropMarkers(init, n);
      if op.Savepoint? {
        var stack := Snapshots(start, ops);
        assert stack[..|stack| - 1] == Snapshots(start, init);
      }
      if !Marks(op, n) {
        Snoc(start, rest, op);
        CoherentSnoc(start, rest, op);
      }
    }
  }

  lemma {:induction false} WriteBelow<V>(start: Vars<V>, ops: Log<V>, x: string, v: Option<V>)
    requires !Touched(ops, x) && Coherent(start, ops)
    ensures Apply(Put(start, x, v), ops) == Put(Apply(start, ops), x, v)
    ensures Snapshots(Put(start, x, v), ops) == WriteAll(Snapshots(start, ops), x, v)
    ensures Coherent(Put(start, x, v), ops)
    decreases |ops|
  {
    if ops != [] {
      var m := |ops| - 1;
      var init, op := ops[..m], ops[m];
      assert init + [op] == ops;
      Untouched(ops, x);
      CoherentPrefix(start, ops, m);
      WriteBelow(start, init, x, v);
      CoherentSnoc(Put(start, x, v), init, op);
      SameVars(Apply(Put(start, x, v), ops), Put(Apply(start, ops), x, v));
    }
  }

  // --------------------------------------------------------------- refinement

  /** What the specification becomes: a lost write does nothing to it. */
  ghost function Following<V>(start: Vars<V>, s: State<V>, c: Command<V>): Spec<V> {
    if Lost(s, c) then Abstract(start, s.ops) else SpecStep(Abstract(start, s.ops), c)
  }

  /** Every command keeps the invariant and does to the snapshots what the
      specification says; a lost write does nothing to them. */
  lemma StepRefines<V>(start: Vars<V>, s: State<V>, c: Command<V>)
    requires Inv(start, s)
    ensures var q := Following(start, s, c); Inv(q.start, Exec(s, c)) && Abstract(q.start, Exec(s, c).ops) == q
    ensures !Lost(s, c) ==> Answer(s, c) == SpecAnswer(Abstract(start, s.ops), c)
  {
    hide Inv, Snapshots, Apply, Undo, Lookup;
    match c
    case SetVariable(x, v, true) => OverlayRefines(start, s, c, Set(x, Lookup(s.base, s.ops, x), v));
    case RemoveVariable(x, true) => OverlayRefines(start, s, c, Remove(x, Lookup(s.base, s.ops, x)));
    case PushSavepoint(n) => OverlayRefines(start, s, c, Savepoint(n));
    case SetVariable(x, v, false) => WriteRefines(start, s, x, Some(v));
    case RemoveVariable(x, false) => WriteRefines(start, s, x, None);
    case ReleaseSavepoint(n) => ReleaseRefines(start, s, n);
    case RollbackTo(n) => RollbackToRefines(start, s, n);
    case Commit => EndRefines(start, s);
    case Rollback => EndRefines(start, s);
  }

  lemma OverlayRefines<V>(start: Vars<V>, s: State<V>, c: Command<V>, op: VariableOp<V>)
    requires Inv(start, s)
    requires c.PushSavepoint? || ((c.SetVariable? || c.RemoveVariable?) && c.inTransaction)
    requires Exec(s, c) == s.(ops := s.ops + [op]) && op.name == c.name
    requires !op.Savepoint? ==> op.prev == Lookup(s.base, s.ops, op.name)
    ensures Inv(start, Exec(s, c)) && Abstract(start, Exec(s, c).ops) == SpecStep(Abstract(start, s.ops), c)
    ensures Answer(s, c) == SpecAnswer(Abstract(start, s.ops), c)
  {
    VisibleFromStart(start, s);
    CoherentSnoc(start, s.ops, op);
    Snoc(start, s.ops, op);
    assert c.SetVariable? ==> op == Set(c.name, Lookup(s.base, s.ops, c.name), c.value);
    assert s.ops + [op] == Exec(s, c).ops;
    assert (s.ops + [op])[|s.ops|] == op && Exec(s, c).ops[|s.ops|] == op;
  }

  lemma ReleaseRefines<V>(start: Vars<V>, s: State<V>, n: string)
    requires Inv(start, s)
    ensures Inv(start, State(s.base, DropMarkers(s.ops, n)))
    ensures Abstract(start, DropMarkers(s.ops, n)) == SpecStep(Abstract(start, s.ops), ReleaseSavepoint(n))
  {
    DropKeeps(start, s.ops, n);
  }

  lemma RollbackToRefines<V>(start: Vars<V>, s: State<V>, n: string)
    requires Inv(start, s)
    ensures var c: Command<V> := RollbackTo(n);
            && Inv(start, Exec(s, c)) && Abstract(start, Exec(s, c).ops) == SpecStep(Abstract(start, s.ops), c)
            && SpecStep(Abstract(start, s.ops), c).start == start
            && Answer(s, c) == SpecAnswer(Abstract(start, s.ops), c)
  {
    hide Inv, Snapshots, Apply, Undo;
    MarkerIsLatest(start, s.ops, n);
    UndoTail(start, s.base, s.ops, MarkerEnd(s.ops, n));
  }

  /** COMMIT and ROLLBACK leave an empty log over the current and the starting map. */
  lemma EndRefines<V>(start: Vars<V>, s: State<V>)
    requires Inv(start, s)
    ensures Inv(Apply(start, s.ops), State(Apply(s.base, s.ops), []))
    ensures Inv(start, State(Undo(s.base, s.ops), []))
    ensures Abstract(start, s.ops).start == start && Abstract(start, s.ops).current == Apply(start, s.ops)
    ensures forall m: Vars<V> :: Abstract(m, []) == Spec(m, m, [])
  {
    VisibleFromStart(start, s);
    UndoTail(start, s.base, s.ops, 0);
    assert s.ops[0..] == s.ops && s.ops[..0] == [];
  }

  lemma WriteRefines<V>(start: Vars<V>, s: State<V>, x: string, v: Option<V>)
    requires Inv(start, s)
    ensures var p := Abstract(start, s.ops);
            var q := if Touched(s.ops, x) then p else WriteThrough(p, x, v);
            Inv(q.start, s.(base := Put(s.base, x, v))) && Abstract(q.start, s.ops) == q
    ensures !Touched(s.ops, x) ==> (x in s.base <==> x in Apply(start, s.ops))
  {
    if !Touched(s.ops, x) {
      WriteBelow(start, s.ops, x, v);
      LookupSame(s.base, start, s.ops, x);
      VisibleFromStart(start, s);
      assert Get(s.base, x) == Get(Apply(start, s.ops), x);
    }
  }

  /** Over every run from a quiescent store, the visible map, the map a ROLLBACK
      returns to and the map at every surviving savepoint are exactly those of the
      snapshot stack. */
  lemma {:induction false} RunRefines<V>(base: Vars<V>, cs: seq<Command<V>>)
    ensures var s := Run(State(base, []), cs);
            var p := SpecRun(State(base, []), Spec(base, base, []), cs);
            && Inv(p.start, s)
            && Abstract(p.start, s.ops) == p
            && p.current == Apply(s.base, s.ops)
            && forall x :: Lookup(s.base, s.ops, x) == Get(p.current, x)
    decreases |cs|
  {
    var s := Run(State(base, []), cs);
    var p := SpecRun(State(base, []), Spec(base, base, []), cs);
    if cs != [] {
      var n := |cs| - 1;
      RunRefines(base, cs[..n]);
      var q := SpecRun(State(base, []), Spec(base, base, []), cs[..n]);
      StepRefines(q.start, Run(State(base, []), cs[..n]), cs[n]);
    }
    VisibleFromStart(p.start, s);
  }

  // ------------------------------------------------------------ whole-run laws

  predicate Transactional<V>(c: Command<V>) {
    !c.Commit? && (c.SetVariable? || c.RemoveVariable? ==> c.inTransaction)
  }

  /** A full ROLLBACK returns to the exact starting map after any number of
      assignments, savepoints, releases, partial and full rollbacks. */
  lemma {:induction false} RollbackRestoresStart<V>(base: Vars<V>, cs: seq<Command<V>>)
    requires forall i :: 0 <= i < |cs| ==> Transactional(cs[i])
    ensures Exec(Run(State(base, []), cs), Rollback) == State(base, [])
  {
    var s := Run(State(base, []), cs);
    StartIsKept(base, cs);
    UndoTail(base, s.base, s.ops, 0);
    assert s.ops[0..] == s.ops && s.ops[..0] == [];
    SameVars(Undo(s.base, s.ops), base);
  }

  lemma {:induction false} StartIsKept<V>(base: Vars<V>, cs: seq<Command<V>>)
    requires forall i :: 0 <= i < |cs| ==> Transactional(cs[i])
    ensures Inv(base, Run(State(base, []), cs))
    decreases |cs|
  {
    if cs != [] {
      StartIsKept(base, cs[..|cs| - 1]);
      StepRefines(base, Run(State(base, []), cs[..|cs| - 1]), cs[|cs| - 1]);
    }
  }

  /** Commands that may run under savepoint `n` without removing it: any except
      COMMIT, ROLLBACK, reusing or releasing `n`, and rolling back past it. */
  predicate Spares<V>(c: Command<V>, n: string, ops: Log<V>) {
    && Transactional(c) && !c.Rollback?
    && (c.PushSavepoint? || c.ReleaseSavepoint? ==> c.name != n)
    && (c.RollbackTo? && MarkerEnd(ops, c.name) > 0 ==> MarkerEnd(ops, n) <= MarkerEnd(ops, c.name))
  }

  /** The snapshot named `n` is at `j`, and nothing above it is named `n`. */
  ghost predicate Holds<V>(stack: seq<Snapshot<V>>, j: nat, n: string, vars: Vars<V>) {
    && j < |stack| && stack[j] == Snapshot(n, vars)
    && forall i :: j < i < |stack| ==> stack[i].name != n
  }

  ghost predicate HeldBy<V>(stack: seq<Snapshot<V>>, n: string, vars: Vars<V>) {
    exists j :: Holds(stack, j, n, vars)
  }

  /** Markers and snapshots come in the same order. */
  lemma {:induction false} MarkerOrder<V>(start: Vars<V>, ops: Log<V>, n: string, m: string)
    requires MarkerEnd(ops, n) <= MarkerEnd(ops, m)
    ensures Latest(Snapshots(start, ops), n) <= Latest(Snapshots(start, ops), m)
    decreases |ops|
  {
    if ops != [] {
      var init, op := ops[..|ops| - 1], ops[|ops| - 1];
      assert ops == init + [op];
      Snoc(start, init, op);
      LatestSnoc(Snapshots(start, init), Snapshot(op.name, Apply(start, init)), n);
      LatestSnoc(Snapshots(start, init), Snapshot(op.name, Apply(start, init)), m);
      if !Marks(op, m) && !Marks(op, n) {
        MarkerOrder(start, init, n, m);
      }
    }
  }

  /** Dropping one name from the stack keeps a snapshot held under another. */
  lemma {:induction false} WithoutHolds<V>(stack: seq<Snapshot<V>>, j: nat, n: string, vars: Vars<V>, m: string)
    requires m != n && Holds(stack, j, n, vars)
    ensures HeldBy(Without(stack, m), n, vars)
    decreases |stack|
  {
    var init, top := stack[..|stack| - 1], stack[|stack| - 1];
    if j < |init| {
      assert Holds(init, j, n, vars);
      WithoutHolds(init, j, n, vars, m);
      var h: nat :| Holds(Without(init, m), h, n, vars);
      assert Holds(Without(stack, m), h, n, vars);
    } else {
      assert Holds(Without(stack, m), |Without(init, m)|, n, vars);
    }
  }

  lemma HoldsStep<V>(start: Vars<V>, ops: Log<V>, c: Command<V>, n: string, vars: Vars<V>)
    requires HeldBy(Snapshots(start, ops), n, vars) && Spares(c, n, ops)
    ensures HeldBy(SpecStep(Abstract(start, ops), c).stack, n, vars)
  {
    var p := Abstract(start, ops);
    hide Snapshots, Apply;
    var j: nat :| Holds(p.stack, j, n, vars);
    if c.ReleaseSavepoint? {
      WithoutHolds(p.stack, j, n, vars, c.name);
    } else if c.RollbackTo? && Latest(p.stack, c.name) > 0 {
      var k := Latest(p.stack, c.name);
      HeldIsLatest(p.stack, j, n, vars);
      MarkerIsLatest(start, ops, c.name);
      MarkerOrder(start, ops, n, c.name);
      assert Holds(p.stack[..k], j, n, vars);
    } else {
      assert Holds(SpecStep(p, c).stack, j, n, vars);
    }
  }

  /** ROLLBACK TO a savepoint finds it and brings back exactly the variables that
      were visible when it was set, whatever ran under it that did not remove it. */
  lemma SavepointRestores<V>(start: Vars<V>, s: State<V>, n: string, during: seq<Command<V>>)
    requires Inv(start, s) && UnderSavepoint(s, n, during)
    ensures var t := Run(Exec(s, PushSavepoint(n)), during);
            var u := Exec(t, RollbackTo(n));
            Answer(t, RollbackTo(n)) && Apply(u.base, u.ops) == Apply(s.base, s.ops)
  {
    VisibleFromStart(start, s);
    HeldUnderRun(start, s, n, during);
    RollbackToHeld(start, Run(Exec(s, PushSavepoint(n)), during), n, Apply(start, s.ops));
  }

  /** Every command spares the savepoint when its turn comes. */
  ghost predicate UnderSavepoint<V>(s: State<V>, n: string, during: seq<Command<V>>) {
    forall i :: 0 <= i < |during| ==> Spares(during[i], n, Run(Exec(s, PushSavepoint(n)), during[..i]).ops)
  }

  lemma RollbackToHeld<V>(start: Vars<V>, t: State<V>, n: string, vars: Vars<V>)
    requires Inv(start, t) && HeldBy(Snapshots(start, t.ops), n, vars)
    ensures Answer(t, RollbackTo(n))
    ensures var u := Exec(t, RollbackTo(n)); Apply(u.base, u.ops) == vars
  {
    hide Inv, Snapshots, Apply, Exec, Answer;
    var c: Command<V> := RollbackTo(n);
    var p := Abstract(start, t.ops);
    var j: nat :| Holds(p.stack, j, n, vars);
    HeldIsLatest(p.stack, j, n, vars);
    RollbackToRefines(start, t, n);
    InvVisible(start, Exec(t, c));
  }

  lemma HeldIsLatest<V>(stack: seq<Snapshot<V>>, j: nat, n: string, vars: Vars<V>)
    requires Holds(stack, j, n, vars)
    ensures Latest(stack, n) == j + 1
  {
    assert stack[j].name == n;
  }

  lemma InvVisible<V>(start: Vars<V>, s: State<V>)
    requires Inv(start, s)
    ensures Apply(s.base, s.ops) == Apply(start, s.ops)
  {
    VisibleFromStart(start, s);
  }

  lemma {:induction false} HeldUnderRun<V>(start: Vars<V>, s: State<V>, n: string, during: seq<Command<V>>)
    requires Inv(start, s) && UnderSavepoint(s, n, during)
    ensures var t := Run(Exec(s, PushSavepoint(n)), during);
            Inv(start, t) && HeldBy(Snapshots(start, t.ops), n, Apply(start, s.ops))
    decreases |during|
  {
    hide Inv, Spares;
    if during == [] {
      StepRefines(start, s, PushSavepoint(n));
      var stack := Snapshots(start, s.ops + [Savepoint(n)]);
      assert Holds(stack, |stack| - 1, n, Apply(start, s.ops));
    } else {
      var k := |during| - 1;
      assert forall i :: 0 <= i < k ==> during[..k][..i] == during[..i];
      HeldUnderRun(start, s, n, during[..k]);
      var t := Run(Exec(s, PushSavepoint(n)), during[..k]);
      SparedIsTransactional(during[k], n, t.ops);
      hide Exec, Snapshots, Apply;
      StepRefines(start, t, during[k]);
      HoldsStep(start, t.ops, during[k], n, Apply(start, s.ops));
    }
  }

  lemma SparedIsTransactional<V>(c: Command<V>, n: string, ops: Log<V>)
    requires Spares(c, n, ops)
    ensures Transactional(c) && !c.Rollback?
  {
  }

  /** A non-transactional write to a variable that the open transaction has written
      leaves no trace after COMMIT. */
  lemma NonTransactionalWriteIsLost()
    ensures var s1 := Exec(State(map[], []), SetVariable("x", 1, true));
            var s2 := Exec(s1, SetVariable("x", 2, false));
            && Lost(s1, SetVariable("x", 2, false))
            && Lookup(s2.base, s2.ops, "x") == Some(1)
            && Exec(s2, Commit) == State(map["x" := 1], [])
  {
    var s1 := Exec(State(map[], []), SetVariable("x", 1, true));
    var s2 := Exec(s1, SetVariable("x", 2, false));
    assert s1.ops == [Set("x", None, 1)] == s2.ops && Writes(s1.ops[0], "x");
    assert s2.ops[..0] == [];
    assert Apply(s2.base, s2.ops) == Put(s2.base, "x", Some(1)) == map["x" := 1];
  }

  /** After a partial rollback the base really can hold an uncommitted value. */
  lemma PartialRollbackDirtiesBase()
    ensures var s1 := Exec(State(map[], []), SetVariable("x", 1, true));
            var s3 := Exec(Exec(s1, PushSavepoint("p")), SetVariable("x", 2, true));
            Exec(s3, RollbackTo("p")).base == map["x" := 1]
  {
    var s1 := Exec(State(map[], []), SetVariable("x", 1, true));
    var s2 := Exec(s1, PushSavepoint("p"));
    var s3 := Exec(s2, SetVariable("x", 2, true));
    assert s1.ops == [Set("x", None, 1)];
    assert s2.ops[..1] == s1.ops && s3.ops[..2] == s2.ops;
    assert Lookup(map[], s2.ops, "x") == Some(1);
    assert s3.ops[2..] == [Set("x", Some(1), 2)];
  }

  // ----------------------------------------------------- the imperative store

  class Store<V> {
    var base: Vars<V>
    var ops: Log<V>
    /** The map a full ROLLBACK returns to. */
    ghost var start: Vars<V>

    ghost function Now(): State<V>
      reads this
    {
      State(base, ops)
    }

    ghost predicate Valid()
      reads this
    {
      Inv(start, Now())
    }

    /** The snapshot stack this store stands for. */
    ghost function View(): Spec<V>
      reads this
    {
      Abstract(start, ops)
    }

    /** This store and its snapshot stack both took the step `c`. */
    twostate predicate Did(c: Command<V>)
      reads this
    {
      && Now() == Exec(old(Now()), c)
      && View() == (if Lost(old(Now()), c) then old(View()) else SpecStep(old(View()), c))
    }

    constructor ()
      ensures Valid() && Now() == State(map[], []) && View() == Spec.Spec(map[], map[], [])
    {
      base, ops, start := map[], [], map[];
    }

    ghost method Advance(s: State<V>, c: Command<V>)
      requires Inv(start, s) && Now() == Exec(s, c)
      modifies this`start
      ensures Valid()
      ensures View() == (if Lost(s, c) then Abstract(old(start), s.ops) else SpecStep(Abstract(old(start), s.ops), c))
      ensures !Lost(s, c) ==> Answer(s, c) == SpecAnswer(Abstract(old(start), s.ops), c)
    {
      StepRefines(start, s, c);
      start := if Lost(s, c) then start else SpecStep(Abstract(start, s.ops), c).start;
    }

    method SetVariable(name: string, value: V, inTransaction: bool)
      requires Valid()
      modifies this
      ensures Valid() && Did(Command.SetVariable(name, value, inTransaction))
    {
      ghost var s := Now();
      if inTransaction {
        var prev := VariableValue(name);
        ops := ops + [Set(name, prev, value)];
      } else {
        base := base[name := value];
      }
      Advance(s, Command.SetVariable(name, value, inTransaction));
    }

    method RemoveVariable(name: string, inTransaction: bool) returns (existed: bool)
      requires Valid()
      modifies this
      ensures Valid() && Did(Command.RemoveVariable(name, inTransaction))
      ensures existed == Answer(old(Now()), Command.RemoveVariable(name, inTransaction))
      ensures !Lost(old(Now()), Command.RemoveVariable(name, inTransaction)) ==>
                existed == (name in old(View().current))
    {
      ghost var s := Now();
      if inTransaction {
        var prev := VariableValue(name);
        existed := prev.Some?;
        ops := ops + [Remove(name, prev)];
      } else {
        existed := name in base;
        base := base - {name};
      }
      Advance(s, Command.RemoveVariable(name, inTransaction));
    }

    /** Scans the log from its end. */
    method VariableValue(name: string) returns (r: Option<V>)
      requires Valid()
      ensures r == Get(View().current, name)
      ensures r == Lookup(base, ops, name)
    {
      VisibleFromStart(start, Now());
      var i := |ops|;
      assert ops[..i] == ops;
      while i > 0
        invariant 0 <= i <= |ops|
        invariant Lookup(base, ops, name) == Lookup(base, ops[..i], name)
      {
        i := i - 1;
        assert ops[..i + 1][..i] == ops[..i];
        if Writes(ops[i], name) {
          return After(ops[i]);
        }
      }
      r := Get(base, name);
    }

    method VariablesSnapshot() returns (merged: Vars<V>)
      requires Valid()
      ensures merged == View().current
    {
      VisibleFromStart(start, Now());
      merged := Replay(base, ops);
    }

    /** The loop shared by the snapshot and COMMIT. */
    static method Replay(m: Vars<V>, ops: Log<V>) returns (r: Vars<V>)
      ensures r == Apply(m, ops)
    {
      r := m;
      for i := 0 to |ops|
        invariant r == Apply(m, ops[..i])
      {
        assert ops[..i + 1][..i] == ops[..i];
        match ops[i]
        case Set(name, _, value) => r := r[name := value];
        case Remove(name, _) => r := r - {name};
        case Savepoint(_) =>
      }
      assert ops[..|ops|] == ops;
    }

    method CommitVariables()
      requires Valid()
      modifies this
      ensures Valid() && Did(Commit)
    {
      ghost var s := Now();
      var taken := ops;
      ops := [];
      base := Replay(base, taken);
      Advance(s, Commit);
    }

    method RollbackVariables()
      requires Valid()
      modifies this
      ensures Valid() && Did(Rollback)
    {
      var _ := RestoreOverlayAfter(None);
    }

    method RollbackVariablesTo(name: string) returns (found: bool)
      requires Valid()
      modifies this
      ensures Valid() && Did(RollbackTo(name))
      ensures found <==> exists i :: 0 <= i < |old(View().stack)| && old(View().stack)[i].name == name
    {
      found := RestoreOverlayAfter(Some(name));
    }

    method ReleaseSavepoint(name: string)
      requires Valid()
      modifies this
      ensures Valid() && Did(Command.ReleaseSavepoint(name))
    {
      ghost var s := Now();
      var kept: Log<V> := [];
      for i := 0 to |ops|
        invariant ops == s.ops && base == s.base && start == old(start)
        invariant kept == DropMarkers(ops[..i], name)
      {
        assert ops[..i + 1][..i] == ops[..i];
        if !Marks(ops[i], name) {
          kept := kept + [ops[i]];
        }
      }
      assert ops[..|ops|] == ops;
      ops := kept;
      Advance(s, Command.ReleaseSavepoint(name));
    }

    method PushSavepoint(name: string)
      requires Valid()
      modifies this
      ensures Valid() && Did(Command.PushSavepoint(name))
    {
      ghost var s := Now();
      ops := ops + [Savepoint(name)];
      Advance(s, Command.PushSavepoint(name));
    }

    /** `restore_overlay_after`: cut the log after the latest marker (or at its
        start) and write the previous values of the cut part back. */
    method RestoreOverlayAfter(name: Option<string>) returns (found: bool)
      requires Valid()
      modifies this
      ensures Valid() && Did(if name.None? then Rollback else RollbackTo(name.value))
      ensures name.Some? ==> found == SpecAnswer(old(View()), RollbackTo(name.value))
    {
      ghost var s := Now();
      ghost var c: Command<V> := if name.None? then Rollback else RollbackTo(name.value);
      var cut := 0;
      if name.Some? {
        cut := FindMarker(ops, name.value);
        if cut == 0 {
          Advance(s, c);
          return false;
        }
      }
      var removed := ops[cut..];
      ops := ops[..cut];
      base := UndoAll(base, removed);
      assert s.ops[0..] == s.ops && s.ops[..0] == [];
      Advance(s, c);
      found := true;
    }

    static method FindMarker(ops: Log<V>, name: string) returns (k: nat)
      ensures k == MarkerEnd(ops, name)
    {
      k := 0;
      for i := 0 to |ops|
        invariant k == MarkerEnd(ops[..i], name)
      {
        assert ops[..i + 1][..i] == ops[..i];
        if Marks(ops[i], name) {
          k := i + 1;
        }
      }
      assert ops[..|ops|] == ops;
    }

    static method UndoAll(m: Vars<V>, removed: Log<V>) returns (r: Vars<V>)
      ensures r == Undo(m, removed)
    {
      r := m;
      var i := |removed|;
      assert removed[..i] == removed;
      while i > 0
        invariant 0 <= i <= |removed|
        invariant Undo(m, removed) == Undo(r, removed[..i])
      {
        i := i - 1;
        assert removed[..i + 1][..i] == removed[..i];
        match removed[i]
        case Set(name, prev, _) => r := Put(r, name, prev);
        case Remove(name, prev) => r := Put(r, name, prev);
        case Savepoint(_) =>
      }
    }
  }
}
