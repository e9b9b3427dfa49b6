/** Runs of the environment over restarts: the list in memory and its copy in non-volatile memory
    (crt/setenv.c, crt/environ.c). */
module EnvRuns {
  import opened NvMem
  import opened EnvModel
  import opened EnvStore

  /** `list` is empty after a restart, until the environment is used. */
  datatype State = State(list: seq<Entry>, nv: seq<byte>)

  /** The list findenv works on. */
  function View(s: State): seq<Entry> {
    if s.list == [] then Load(s.nv) else s.list
  }

  /** save_env, for a memory that is large enough: an empty list is not written. */
  function Save(nv: seq<byte>, l: seq<Entry>): (nv': seq<byte>)
    requires Fits(nv, l)
    ensures |nv'| == |nv|
  {
    if l == [] then nv else Saved(nv, l)
  }

  datatype Op = Set(name: Text, value: Text, force: bool) | Unset(name: Text) | Get(name: Text) | Restart

  /** The list after an operation. */
  function Edited(l: seq<Entry>, op: Op): seq<Entry> {
    match op
    case Set(name, value, force) => SetEnv(l, name, value, force)
    case Unset(name) => UnsetEnv(l, name)
    case _ => l
  }

  /** An operation on names and values the memory can keep. */
  predicate Storable(s: State, op: Op) {
    && (op.Set? ==> op.name != [] && Item(op.name) && Item(op.value))
    && Fits(s.nv, Edited(View(s), op))
  }

  /** setenv saves only what differs, unsetenv whenever it has found the variable. */
  function Step(s: State, op: Op): State
    requires Storable(s, op)
  {
    var l := Edited(View(s), op);
    if op == Restart then State([], s.nv)
    else State(l, if l == View(s) then s.nv else Save(s.nv, l))
  }

  ghost predicate AllStorable(s: State, ops: seq<Op>)
    decreases |ops|
  {
    ops != [] ==> Storable(s, ops[0]) && AllStorable(Step(s, ops[0]), ops[1..])
  }

  ghost function Run(s: State, ops: seq<Op>): State
    requires AllStorable(s, ops)
    decreases |ops|
  {
    if ops == [] then s else Run(Step(s, ops[0]), ops[1..])
  }

  /** A list that survives its encoding. */
  predicate Keepable(l: seq<Entry>) {
    Sorted(l) && Items(l) && forall i :: 0 <= i < |l| ==> l[i].name != []
  }

  /** Whatever is in memory is also stored, and loading it stays inside the buffer. */
  predicate Inv(s: State) {
    Keepable(Load(s.nv)) && (s.list == [] || s.list == Load(s.nv)) && LoadsInside(s.nv)
  }

  lemma EditedKeepable(l: seq<Entry>, op: Op)
    requires Keepable(l) && (op.Set? ==> op.name != [] && Item(op.name) && Item(op.value))
    ensures Keepable(Edited(l, op))
  {
    hide Find, Place, Item, Less;
    match op
    case Set(name, value, force) => SetEnvSorted(l, name, value, force);
    case Unset(name) => UnsetEnvSorted(l, name);
    case _ =>
  }

  /** unsetenv found its variable to be the only one. */
  predicate RemovesLast(l: seq<Entry>, op: Op) {
    op.Unset? && |l| == 1 && l[0].name == op.name
  }

  lemma EditedEmpty(l: seq<Entry>, op: Op)
    requires l != []
    ensures Edited(l, op) == [] <==> RemovesLast(l, op)
  {
  }

  /** One step: the memory always holds the list, and the list is the edited one unless the last
      variable was to be removed, which leaves the stored list as it was. */
  lemma StepStores(s: State, op: Op)
    requires Inv(s) && Storable(s, op)
    ensures Inv(Step(s, op))
    ensures View(Step(s, op)) == if RemovesLast(View(s), op) then View(s) else Edited(View(s), op)
  {
    hide Load, LoadsInside, Fits, Keepable, Saved, SetEnv, UnsetEnv;
    var l := Edited(View(s), op);
    assert View(s) == Load(s.nv);
    if op != Restart && l != View(s) {
      EditedKeepable(View(s), op);
      if View(s) != [] {
        EditedEmpty(View(s), op);
      } else {
        EditEmpty(op);
      }
      if l != [] {
        KeptExactly(s.nv, l);
      }
    }
  }

  lemma EditEmpty(op: Op)
    ensures Edited([], op) == if op.Set? then [Entry(op.name, op.value)] else []
  {
  }

  lemma KeptExactly(nv: seq<byte>, l: seq<Entry>)
    requires Fits(nv, l) && Keepable(l)
    ensures Load(Saved(nv, l)) == l && LoadsInside(Saved(nv, l))
  {
    hide Load, LoadsInside, Saved, Sorted;
    RoundTripIff(nv, l);
  }

  // ----- The map over a run

  /** What an operation is to do to the map of variables. */
  function MapStep(m: map<Text, Text>, op: Op): map<Text, Text> {
    match op
    case Set(name, value, force) => if name in m && !force then m else m[name := value]
    case Unset(name) => m - {name}
    case _ => m
  }

  function MapRun(m: map<Text, Text>, ops: seq<Op>): map<Text, Text>
    decreases |ops|
  {
    if ops == [] then m else MapRun(MapStep(m, ops[0]), ops[1..])
  }

  ghost function Vars(s: State): map<Text, Text> {
    AsMap(View(s))
  }

  lemma EditedIsMapStep(l: seq<Entry>, op: Op)
    requires Sorted(l)
    ensures AsMap(Edited(l, op)) == MapStep(AsMap(l), op)
  {
    hide Sorted, SetEnv, UnsetEnv, AsMap;
    match op
    case Set(name, value, force) => SetEnvIsUpdate(l, name, value, force);
    case Unset(name) => UnsetEnvIsRemoval(l, name);
    case _ =>
  }

  lemma AsMapOne(l: seq<Entry>)
    requires |l| == 1
    ensures AsMap(l) == map[l[0].name := l[0].value]
  {
    assert AsMap(l[1..]) == map[];
  }

  /** A step does to the map what it is to do if and only if it does not remove the last variable: that
      one is still there afterwards, with its value. */
  lemma StepRefinesMap(s: State, op: Op)
    requires Inv(s) && Storable(s, op)
    ensures Vars(Step(s, op)) == MapStep(Vars(s), op) <==> !RemovesLast(View(s), op)
    ensures RemovesLast(View(s), op) ==> Vars(Step(s, op)) == Vars(s)
  {
    hide Storable, Load, LoadsInside, Step, Sorted, Items, Edited, AsMap;
    StepStores(s, op);
    EditedIsMapStep(View(s), op);
    if RemovesLast(View(s), op) {
      AsMapOne(View(s));
      assert op.name in Vars(s) && op.name !in MapStep(Vars(s), op);
    }
  }

  ghost predicate NeverRemovesLast(s: State, ops: seq<Op>)
    requires AllStorable(s, ops)
    decreases |ops|
  {
    ops != [] ==> !RemovesLast(View(s), ops[0]) && NeverRemovesLast(Step(s, ops[0]), ops[1..])
  }

  /** Over any run, restarts included, the environment is the finite map that was written to, sorted,
      and completely stored. */
  lemma {:induction false} RunRefinesMap(s: State, ops: seq<Op>)
    requires Inv(s) && AllStorable(s, ops) && NeverRemovesLast(s, ops)
    ensures Inv(Run(s, ops)) && Sorted(View(Run(s, ops)))
    ensures Vars(Run(s, ops)) == MapRun(Vars(s), ops)
    decreases |ops|
  {
    hide Storable, Step, Edited, MapStep, Sorted, Items, Load, LoadsInside, Vars;
    if ops != [] {
      StepStores(s, ops[0]);
      StepRefinesMap(s, ops[0]);
      RunRefinesMap(Step(s, ops[0]), ops[1..]);
    }
  }

  function WithoutRestarts(ops: seq<Op>): seq<Op>
    decreases |ops|
  {
    if ops == [] then []
    else if ops[0] == Restart then WithoutRestarts(ops[1..])
    else [ops[0]] + WithoutRestarts(ops[1..])
  }

  /** Restarts cannot be seen: in every run, whatever it removes, leaving them all out changes neither the
      environment nor the memory.  `r` is the state of the system that has not restarted. */
  lemma {:induction false} RestartUnseen(s: State, r: State, ops: seq<Op>)
    requires Inv(s) && Inv(r) && s.nv == r.nv && AllStorable(s, ops)
    ensures AllStorable(r, WithoutRestarts(ops))
    ensures
      var s', r' := Run(s, ops), Run(r, WithoutRestarts(ops));
      View(s') == View(r') && s'.nv == r'.nv
    decreases |ops|
  {
    hide Load, LoadsInside, Keepable, Edited, Save, Fits;
    if ops != [] {
      var op := ops[0];
      StepStores(s, op);
      if op == Restart {
        RestartUnseen(Step(s, op), r, ops[1..]);
      } else {
        StepStores(r, op);
        RestartUnseen(Step(s, op), Step(r, op), ops[1..]);
        FirstStep(r, op, WithoutRestarts(ops[1..]));
      }
    }
  }

  lemma FirstStep(r: State, op: Op, ops: seq<Op>)
    requires Storable(r, op) && AllStorable(Step(r, op), ops)
    ensures AllStorable(r, [op] + ops) && Run(r, [op] + ops) == Run(Step(r, op), ops)
  {
    hide Storable, Step;
    assert ([op] + ops)[1..] == ops;
  }

  predicate Leaves(op: Op, name: Text) {
    (op.Set? || op.Unset?) ==> op.name != name
  }

  lemma {:induction false} UntouchedName(m: map<Text, Text>, ops: seq<Op>, name: Text)
    requires forall i :: 0 <= i < |ops| ==> Leaves(ops[i], name)
    ensures name in MapRun(m, ops) <==> name in m
    ensures name in m ==> MapRun(m, ops)[name] == m[name]
    decreases |ops|
  {
    if ops != [] {
      assert Leaves(ops[0], name);
      UntouchedName(MapStep(m, ops[0]), ops[1..], name);
    }
  }

  /** getenv yields the last value stored, over anything done to other variables and any restart. */
  lemma LastValueStored(s: State, name: Text, value: Text, ops: seq<Op>)
    requires Inv(s) && AllStorable(s, [Set(name, value, true)] + ops)
    requires NeverRemovesLast(s, [Set(name, value, true)] + ops)
    requires forall i :: 0 <= i < |ops| ==> Leaves(ops[i], name)
    ensures GetEnv(View(Run(s, [Set(name, value, true)] + ops)), name) == Found(value)
  {
    hide AllStorable, NeverRemovesLast, Run, Inv, View, GetEnv, AsMap, Leaves;
    var all := [Set(name, value, true)] + ops;
    RunRefinesMap(s, all);
    assert all[1..] == ops;
    UntouchedName(MapStep(Vars(s), all[0]), ops, name);
    GetEnvIsLookup(View(Run(s, all)), name);
  }

  /** A variable that was the only one, removed, comes back with its value. */
  lemma RemovedComesBack(nv: seq<byte>)
    requires Fits(nv, [Entry([65], [66])])
    ensures var s := State([Entry([65], [66])], Saved(nv, [Entry([65], [66])]));
      Inv(s) && Storable(s, Unset([65])) && GetEnv(View(Step(s, Unset([65]))), [65]) == Found([66])
  {
    hide Load, LoadsInside, Saved, Encode;
    var l := [Entry([65], [66])];
    assert Keepable(l);
    KeptExactly(nv, l);
    var s := State(l, Saved(nv, l));
    assert Edited(View(s), Unset([65])) == [] by {
      assert RemovesLast(View(s), Unset([65]));
      EditedEmpty(View(s), Unset([65]));
    }
    FitsEmpty(s.nv, l);
    StepStores(s, Unset([65]));
  }

  lemma FitsEmpty(nv: seq<byte>, l: seq<Entry>)
    requires Fits(nv, l)
    ensures Fits(nv, [])
  {
  }
}
