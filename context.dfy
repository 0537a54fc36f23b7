/**
 * The execution context that brackets one call node while the executor runs
 * it. Setting the context snapshots the call's input globals and whether each
 * is mutable; tearing it down turns the globals' diff into an ordered list of
 * side effects. Between the two, the running call can read the context.
 */
module Context {
  import opened Wrappers
  import opened Ids
  import opened Nodes
  import opened SideEffects

  // ---------------------------------------------------------------- dicts

  /** A Python dict as the sequence of its items, in insertion order. */
  type Dict<V> = seq<(string, V)>

  function Names<V>(d: Dict<V>): (r: seq<string>)
    ensures |r| == |d| && forall i :: 0 <= i < |d| ==> r[i] == d[i].0
  {
    seq(|d|, i requires 0 <= i < |d| => d[i].0)
  }

  /** Item i is the last one for its name, so a dict built from d maps that name to item i's value. */
  ghost predicate LastName<V>(d: Dict<V>, i: int)
    requires 0 <= i < |d|
  {
    forall j :: i < j < |d| ==> d[j].0 != d[i].0
  }

  /** Item i is the last one for its id. */
  ghost predicate LastId(d: Dict<Id>, i: int)
    requires 0 <= i < |d|
  {
    forall j :: i < j < |d| ==> d[j].1 != d[i].1
  }

  /** `d[k]` on a dict built from the items d: the last binding of k, if any. */
  function Lookup<V>(d: Dict<V>, k: string): (r: Option<V>)
    ensures r.None? <==> forall i :: 0 <= i < |d| ==> d[i].0 != k
    ensures r.Some? ==> exists i :: 0 <= i < |d| && d[i] == (k, r.value) && LastName(d, i)
    decreases |d|
  {
    if d == [] then None
    else if d[|d| - 1].0 == k then Some(d[|d| - 1].1)
    else
      var front := d[..|d| - 1];
      assert forall i :: 0 <= i < |front| ==> front[i] == d[i];
      Lookup(front, k)
  }

  // ---------------------------------------------------------------- state

  /** The part of the executor the context uses: the runtime value of each executed node. */
  datatype Executor = Executor(idToValue: map<Id, Value>)

  datatype ExecutionContext = ExecutionContext(
    node: Node,
    executor: Executor,
    inputNodeIds: Dict<Id>,
    inputGlobalsMutable: map<string, bool>,
    sideEffects: seq<SideEffect>)

  /** What the globals dictionary reports when torn down: inputs read, and bindings added or changed. */
  datatype GlobalsDictResult = GlobalsDictResult(accessedInputs: seq<string>, addedOrModified: Dict<Value>)

  datatype ContextResult = ContextResult(addedOrModified: Dict<Value>, sideEffects: seq<SideEffect>)

  /**
   * "Context already set" and "No context set" are runtime errors, a non-empty
   * globals dictionary at set time fails an assertion, and a name or id that
   * a dict lacks raises a key error.
   */
  datatype ContextError = ContextAlreadySet | NoContextSet | GlobalsNotEmpty | KeyError

  // ---------------------------------------------------------------- setting up

  /** `variables or node.global_reads`: an absent or empty mapping falls back to the node's recorded reads. */
  function InputNodeIds(variables: Option<Dict<Id>>, node: Node): (r: Dict<Id>)
    requires node.kind.CallNode?
    ensures variables.Some? && variables.value != [] ==> r == variables.value
    ensures variables.None? || variables.value == [] ==> r == node.kind.globalReads
  {
    if variables.Some? && variables.value != [] then variables.value else node.kind.globalReads
  }

  /** `input_globals`: under each input name, the executor's value for the node it names. */
  function Snapshot(ids: Dict<Id>, executor: Executor): (r: Result<map<string, Value>, ContextError>)
    ensures r.Err? ==> r.error == KeyError
    decreases |ids|
  {
    if ids == [] then Ok(map[])
    else
      var last := ids[|ids| - 1];
      match Snapshot(ids[..|ids| - 1], executor)
      case Err(e) => Err(e)
      case Ok(m) =>
        if last.1 in executor.idToValue then Ok(m[last.0 := executor.idToValue[last.1]])
        else Err(KeyError)
  }

  /** The snapshot fails exactly when some input id has no value in the executor. */
  lemma {:induction false} SnapshotFails(ids: Dict<Id>, executor: Executor)
    ensures Snapshot(ids, executor).Err? <==> exists i :: 0 <= i < |ids| && ids[i].1 !in executor.idToValue
    decreases |ids|
  {
    if ids != [] {
      var front := ids[..|ids| - 1];
      SnapshotFails(front, executor);
      assert forall i :: 0 <= i < |front| ==> front[i] == ids[i];
    }
  }

  /** A snapshot binds exactly the input names. */
  lemma {:induction false} SnapshotKeys(ids: Dict<Id>, executor: Executor)
    requires Snapshot(ids, executor).Ok?
    ensures forall k :: k in Snapshot(ids, executor).value <==> k in Names(ids)
    decreases |ids|
  {
    if ids != [] {
      var front := ids[..|ids| - 1];
      var last := ids[|ids| - 1];
      SnapshotKeys(front, executor);
      assert Snapshot(ids, executor).value == Snapshot(front, executor).value[last.0 := executor.idToValue[last.1]];
      assert Names(ids) == Names(front) + [last.0];
    }
  }

  /** Item i, the last for its name, is still the last for it once the final item is dropped. */
  lemma LastNameInFront<V>(d: Dict<V>, i: int)
    requires 0 <= i < |d| - 1 && LastName(d, i)
    ensures LastName(d[..|d| - 1], i) && d[i].0 != d[|d| - 1].0
  {
    var front := d[..|d| - 1];
    forall j | i < j < |front| ensures front[j].0 != front[i].0 {
      assert front[j] == d[j] && front[i] == d[i];
    }
  }

  /** A snapshot maps each input name to the value of the id its last item names. */
  lemma {:induction false} SnapshotValues(ids: Dict<Id>, executor: Executor)
    requires Snapshot(ids, executor).Ok?
    ensures forall i :: 0 <= i < |ids| && LastName(ids, i) ==>
              ids[i].1 in executor.idToValue && ids[i].0 in Snapshot(ids, executor).value &&
              Snapshot(ids, executor).value[ids[i].0] == executor.idToValue[ids[i].1]
    decreases |ids|
  {
    if ids != [] {
      var front := ids[..|ids| - 1];
      var last := ids[|ids| - 1];
      SnapshotValues(front, executor);
      var m := Snapshot(front, executor).value;
      assert Snapshot(ids, executor).value == m[last.0 := executor.idToValue[last.1]];
      forall i | 0 <= i < |ids| - 1 && LastName(ids, i)
        ensures ids[i].1 in executor.idToValue && ids[i].0 in Snapshot(ids, executor).value &&
                Snapshot(ids, executor).value[ids[i].0] == executor.idToValue[ids[i].1]
      {
        LastNameInFront(ids, i);
        assert ids[i] == front[i];
      }
    }
  }

  /** `is_mutable` of each snapshot value, taken when the context is set. */
  function Mutability(snapshot: map<string, Value>, isMutable: Value -> bool): (r: map<string, bool>)
    ensures r.Keys == snapshot.Keys
    ensures forall k :: k in r ==> r[k] == isMutable(snapshot[k])
  {
    map k | k in snapshot :: isMutable(snapshot[k])
  }

  /** The ids of a dict's items, in order. */
  function IdsOf(d: Dict<Id>): (r: seq<Id>)
    ensures |r| == |d| && forall i :: 0 <= i < |d| ==> r[i] == d[i].1
  {
    seq(|d|, i requires 0 <= i < |d| => d[i].1)
  }

  /** `input_nodes`: each input id, mapped to the current global under its name. */
  function InputNodes(ids: Dict<Id>, globals: map<string, Value>): (r: Result<map<Id, Value>, ContextError>)
    ensures r.Err? ==> r.error == KeyError
    decreases |ids|
  {
    if ids == [] then Ok(map[])
    else
      var last := ids[|ids| - 1];
      match InputNodes(ids[..|ids| - 1], globals)
      case Err(e) => Err(e)
      case Ok(m) =>
        if last.0 in globals then Ok(m[last.1 := globals[last.0]])
        else Err(KeyError)
  }

  /** `input_nodes` fails exactly when some input name is no longer bound (a call may delete globals). */
  lemma {:induction false} InputNodesFail(ids: Dict<Id>, globals: map<string, Value>)
    ensures InputNodes(ids, globals).Err? <==> exists i :: 0 <= i < |ids| && ids[i].0 !in globals
    decreases |ids|
  {
    if ids != [] {
      var front := ids[..|ids| - 1];
      InputNodesFail(front, globals);
      assert forall i :: 0 <= i < |front| ==> front[i] == ids[i];
    }
  }

  /** `input_nodes` has exactly the input ids as keys. */
  lemma {:induction false} InputNodesKeys(ids: Dict<Id>, globals: map<string, Value>)
    requires InputNodes(ids, globals).Ok?
    ensures forall x :: x in InputNodes(ids, globals).value <==> x in IdsOf(ids)
    decreases |ids|
  {
    if ids != [] {
      var front := ids[..|ids| - 1];
      var last := ids[|ids| - 1];
      InputNodesKeys(front, globals);
      assert InputNodes(ids, globals).value == InputNodes(front, globals).value[last.1 := globals[last.0]];
      assert IdsOf(ids) == IdsOf(front) + [last.1];
    }
  }

  /** Item i, the last for its id, is still the last for it once the final item is dropped. */
  lemma LastIdInFront(d: Dict<Id>, i: int)
    requires 0 <= i < |d| - 1 && LastId(d, i)
    ensures LastId(d[..|d| - 1], i) && d[i].1 != d[|d| - 1].1
  {
    var front := d[..|d| - 1];
    forall j | i < j < |front| ensures front[j].1 != front[i].1 {
      assert front[j] == d[j] && front[i] == d[i];
    }
  }

  /** `input_nodes` maps each input id to the global under the name of its last item. */
  lemma {:induction false} InputNodesValues(ids: Dict<Id>, globals: map<string, Value>)
    requires InputNodes(ids, globals).Ok?
    ensures forall i :: 0 <= i < |ids| && LastId(ids, i) ==>
              ids[i].0 in globals && ids[i].1 in InputNodes(ids, globals).value &&
              InputNodes(ids, globals).value[ids[i].1] == globals[ids[i].0]
    decreases |ids|
  {
    if ids != [] {
      var front := ids[..|ids| - 1];
      var last := ids[|ids| - 1];
      InputNodesValues(front, globals);
      var m := InputNodes(front, globals).value;
      assert InputNodes(ids, globals).value == m[last.1 := globals[last.0]];
      forall i | 0 <= i < |ids| - 1 && LastId(ids, i)
        ensures ids[i].0 in globals && ids[i].1 in InputNodes(ids, globals).value &&
                InputNodes(ids, globals).value[ids[i].1] == globals[ids[i].0]
      {
        LastIdInFront(ids, i);
        assert ids[i] == front[i];
      }
    }
  }

  /**
   * Right after the context is set, with no global rebound yet, `input_nodes`
   * gives each input id the executor's value for it, provided the input names
   * are distinct, as a dict's keys are.
   */
  lemma {:induction false} InputNodesAtSetTime(ids: Dict<Id>, executor: Executor)
    requires forall i, j :: 0 <= i < j < |ids| ==> ids[i].0 != ids[j].0
    requires Snapshot(ids, executor).Ok?
    ensures InputNodes(ids, Snapshot(ids, executor).value).Ok?
    ensures var nodes := InputNodes(ids, Snapshot(ids, executor).value).value;
            (forall x :: x in nodes <==> x in IdsOf(ids)) &&
            forall x :: x in nodes ==> x in executor.idToValue && nodes[x] == executor.idToValue[x]
  {
    var snap := Snapshot(ids, executor).value;
    SnapshotKeys(ids, executor);
    SnapshotValues(ids, executor);
    InputNodesFail(ids, snap);
    assert forall i :: 0 <= i < |ids| ==> ids[i].0 in Names(ids);
    InputNodesKeys(ids, snap);
    InputNodesValues(ids, snap);
    var nodes := InputNodes(ids, snap).value;
    forall x | x in nodes ensures x in executor.idToValue && nodes[x] == executor.idToValue[x] {
      var i :| 0 <= i < |ids| && IdsOf(ids)[i] == x;
      var j := LastIdFrom(ids, i);
      assert LastName(ids, j);
    }
  }

  /** The last item whose id is that of item i. */
  lemma {:induction false} LastIdFrom(ids: Dict<Id>, i: int) returns (j: int)
    requires 0 <= i < |ids|
    ensures i <= j < |ids| && ids[j].1 == ids[i].1 && LastId(ids, j)
    decreases |ids| - i
  {
    if forall k :: i < k < |ids| ==> ids[k].1 != ids[i].1 {
      j := i;
    } else {
      var k :| i < k < |ids| && ids[k].1 == ids[i].1;
      j := LastIdFrom(ids, k);
    }
  }

  // ---------------------------------------------------------------- side effects

  /** The context recorded the name as an input whose value was mutable. */
  predicate MutableInput(ctx: ExecutionContext, name: string)
  {
    name in ctx.inputGlobalsMutable && ctx.inputGlobalsMutable[name]
  }

  /** Looking the name up fails: it has no mutability entry, or it is mutable and has no input id. */
  predicate Unresolvable(ctx: ExecutionContext, name: string)
  {
    name !in ctx.inputGlobalsMutable || (ctx.inputGlobalsMutable[name] && Lookup(ctx.inputNodeIds, name).None?)
  }

  /** The accessed names that were mutable inputs, in access order. */
  function MutableNames(ctx: ExecutionContext, accessed: seq<string>): (r: seq<string>)
    ensures |r| <= |accessed|
    decreases |accessed|
  {
    if accessed == [] then []
    else
      var front := accessed[..|accessed| - 1];
      var last := accessed[|accessed| - 1];
      MutableNames(ctx, front) + if MutableInput(ctx, last) then [last] else []
  }

  /** The names kept are exactly the accessed names that were mutable inputs. */
  lemma {:induction false} MutableNamesMembers(ctx: ExecutionContext, accessed: seq<string>)
    ensures forall n :: n in MutableNames(ctx, accessed) <==> n in accessed && MutableInput(ctx, n)
    decreases |accessed|
  {
    if accessed != [] {
      var front := accessed[..|accessed| - 1];
      MutableNamesMembers(ctx, front);
      assert accessed == front + [accessed[|accessed| - 1]];
    }
  }

  /** A single access is kept exactly when it is a mutable input. */
  lemma {:induction false} MutableNamesOne(ctx: ExecutionContext, x: string)
    ensures MutableNames(ctx, [x]) == if MutableInput(ctx, x) then [x] else []
  {
    assert [x][..0] == [];
  }

  /**
   * The filter keeps access order: the mutable names of two runs of accesses
   * are those of the first followed by those of the second.
   */
  lemma {:induction false} MutableNamesAppend(ctx: ExecutionContext, a: seq<string>, b: seq<string>)
    ensures MutableNames(ctx, a + b) == MutableNames(ctx, a) + MutableNames(ctx, b)
    decreases |b|
  {
    if b == [] {
      assert a + b == a;
    } else {
      MutableNamesAppend(ctx, a, b[..|b| - 1]);
      MutableNamesAppendStep(ctx, a, b);
    }
  }

  /** One more access at the end, given the property for the accesses before it. */
  lemma {:induction false} MutableNamesAppendStep(ctx: ExecutionContext, a: seq<string>, b: seq<string>)
    requires b != []
    requires MutableNames(ctx, a + b[..|b| - 1]) == MutableNames(ctx, a) + MutableNames(ctx, b[..|b| - 1])
    ensures MutableNames(ctx, a + b) == MutableNames(ctx, a) + MutableNames(ctx, b)
  {
    var ab := a + b;
    var front := b[..|b| - 1];
    var last := b[|b| - 1];
    assert ab[..|ab| - 1] == a + front && ab[|ab| - 1] == last;
  }

  /** `mutable_input_vars`: the input id of each accessed name that was mutable when the context was set. */
  function MutableInputPointers(ctx: ExecutionContext, accessed: seq<string>): (r: Result<seq<ExecutorPointer>, ContextError>)
    ensures r.Err? <==> exists i :: 0 <= i < |accessed| && Unresolvable(ctx, accessed[i])
    ensures r.Err? ==> r.error == KeyError
    ensures r.Ok? ==> var names := MutableNames(ctx, accessed);
                      |r.value| == |names| &&
                      forall i :: 0 <= i < |names| ==> Lookup(ctx.inputNodeIds, names[i]).Some? &&
                                                       r.value[i] == ID(Lookup(ctx.inputNodeIds, names[i]).value)
    decreases |accessed|
  {
    if accessed == [] then Ok([])
    else
      var front := accessed[..|accessed| - 1];
      var last := accessed[|accessed| - 1];
      assert accessed == front + [last];
      match MutableInputPointers(ctx, front)
      case Err(e) => Err(e)
      case Ok(ps) =>
        if last !in ctx.inputGlobalsMutable then Err(KeyError)
        else if !ctx.inputGlobalsMutable[last] then Ok(ps)
        else
          match Lookup(ctx.inputNodeIds, last)
          case None => Err(KeyError)
          case Some(id) => Ok(ps + [ID(id)])
  }

  /** `mutable_output_vars`: a variable pointer for each added or changed binding whose new value is mutable. */
  function MutableOutputPointers(added: Dict<Value>, isMutable: Value -> bool): (r: seq<ExecutorPointer>)
    ensures |r| <= |added|
    decreases |added|
  {
    if added == [] then []
    else
      var front := added[..|added| - 1];
      var last := added[|added| - 1];
      MutableOutputPointers(front, isMutable) + if isMutable(last.1) then [Variable(last.0)] else []
  }

  /** The pointers are variable pointers, one for each binding whose value is mutable. */
  lemma {:induction false} MutableOutputPointersMembers(added: Dict<Value>, isMutable: Value -> bool)
    ensures forall p :: p in MutableOutputPointers(added, isMutable) ==> p.Variable?
    ensures forall k :: Variable(k) in MutableOutputPointers(added, isMutable)
                        <==> exists i :: 0 <= i < |added| && added[i].0 == k && isMutable(added[i].1)
    decreases |added|
  {
    if added != [] {
      var front := added[..|added| - 1];
      MutableOutputPointersMembers(front, isMutable);
      assert forall i :: 0 <= i < |front| ==> front[i] == added[i];
    }
  }

  /** A single binding gives a pointer exactly when its value is mutable. */
  lemma {:induction false} MutableOutputPointersOne(k: string, v: Value, isMutable: Value -> bool)
    ensures MutableOutputPointers([(k, v)], isMutable) == if isMutable(v) then [Variable(k)] else []
  {
    assert [(k, v)][..0] == [];
  }

  /**
   * The filter keeps binding order: the pointers of two runs of bindings are
   * those of the first followed by those of the second.
   */
  lemma {:induction false} MutableOutputPointersAppend(a: Dict<Value>, b: Dict<Value>, isMutable: Value -> bool)
    ensures MutableOutputPointers(a + b, isMutable) == MutableOutputPointers(a, isMutable) + MutableOutputPointers(b, isMutable)
    decreases |b|
  {
    if b == [] {
      assert a + b == a;
    } else {
      MutableOutputPointersAppend(a, b[..|b| - 1], isMutable);
      MutableOutputPointersAppendStep(a, b, isMutable);
    }
  }

  /** One more binding at the end, given the property for the bindings before it. */
  lemma {:induction false} MutableOutputPointersAppendStep(a: Dict<Value>, b: Dict<Value>, isMutable: Value -> bool)
    requires b != []
    requires MutableOutputPointers(a + b[..|b| - 1], isMutable)
               == MutableOutputPointers(a, isMutable) + MutableOutputPointers(b[..|b| - 1], isMutable)
    ensures MutableOutputPointers(a + b, isMutable) == MutableOutputPointers(a, isMutable) + MutableOutputPointers(b, isMutable)
  {
    var ab := a + b;
    assert ab[..|ab| - 1] == a + b[..|b| - 1] && ab[|ab| - 1] == b[|b| - 1];
  }

  /** Effects of one kind come together: the accessed-globals record, then mutations, then the view group. */
  function Phase(e: SideEffect): int
  {
    match e
    case AccessedGlobals(_, _) => 0
    case MutatedNode(_) => 1
    case ViewOfNodes(_) => 2
  }

  /** Phases never go back, and only mutation records repeat. */
  ghost predicate InPhaseOrder(es: seq<SideEffect>)
  {
    forall i, j :: 0 <= i < j < |es| ==> Phase(es[i]) < Phase(es[j]) || (es[i].MutatedNode? && es[j].MutatedNode?)
  }

  ghost predicate HasAccessedGlobals(es: seq<SideEffect>)
  {
    exists i :: 0 <= i < |es| && es[i].AccessedGlobals?
  }

  ghost predicate HasView(es: seq<SideEffect>)
  {
    exists i :: 0 <= i < |es| && es[i].ViewOfNodes?
  }

  /** The pointers of the mutation records, in order. */
  function Mutated(es: seq<SideEffect>): seq<ExecutorPointer>
    decreases |es|
  {
    if es == [] then []
    else Mutated(es[..|es| - 1]) + if es[|es| - 1].MutatedNode? then [es[|es| - 1].pointer] else []
  }

  lemma {:induction false} MutatedConcat(a: seq<SideEffect>, b: seq<SideEffect>)
    ensures Mutated(a + b) == Mutated(a) + Mutated(b)
    decreases |b|
  {
    if b != [] {
      var front := b[..|b| - 1];
      assert (a + b)[..|a + b| - 1] == a + front;
      MutatedConcat(a, front);
    } else {
      assert a + b == a;
    }
  }

  /** One mutation record per pointer, in order. */
  function MutationRecords(ps: seq<ExecutorPointer>): (r: seq<SideEffect>)
    ensures |r| == |ps| && forall i :: 0 <= i < |ps| ==> r[i] == MutatedNode(ps[i])
  {
    seq(|ps|, i requires 0 <= i < |ps| => MutatedNode(ps[i]))
  }

  lemma {:induction false} MutatedOfRecords(ps: seq<ExecutorPointer>)
    ensures Mutated(MutationRecords(ps)) == ps
    decreases |ps|
  {
    if ps != [] {
      var front := ps[..|ps| - 1];
      assert MutationRecords(ps)[..|ps| - 1] == MutationRecords(front);
      MutatedOfRecords(front);
    }
  }

  lemma {:induction false} NoMutationIn(es: seq<SideEffect>)
    requires forall i :: 0 <= i < |es| ==> !es[i].MutatedNode?
    ensures Mutated(es) == []
    decreases |es|
  {
    if es != [] {
      NoMutationIn(es[..|es| - 1]);
    }
  }

  /** No mutation record lies outside what Mutated collects. */
  lemma {:induction false} MutatedEmpty(es: seq<SideEffect>)
    requires Mutated(es) == []
    ensures forall i :: 0 <= i < |es| ==> !es[i].MutatedNode?
    decreases |es|
  {
    if es != [] {
      var front := es[..|es| - 1];
      MutatedEmpty(front);
      assert forall i :: 0 <= i < |front| ==> front[i] == es[i];
    }
  }

  /** The accessed-globals record, present when some input was read or some binding added or changed. */
  function Header(res: GlobalsDictResult): seq<SideEffect>
  {
    if res.accessedInputs != [] || res.addedOrModified != [] then
      [AccessedGlobals(res.accessedInputs, Names(res.addedOrModified))]
    else []
  }

  /** The view group, present when it holds more than one pointer. */
  function ViewGroup(views: seq<ExecutorPointer>): seq<SideEffect>
  {
    if |views| > 1 then [ViewOfNodes(views)] else []
  }

  /**
   * `_compute_side_effects`: an accessed-globals record when any input was
   * read or any binding added or changed; a mutation record per accessed input
   * that was mutable at set time; and a view group of those inputs and of the
   * mutable new bindings, when it holds more than one pointer.
   */
  function ComputeSideEffects(ctx: ExecutionContext, res: GlobalsDictResult, isMutable: Value -> bool): (r: Result<seq<SideEffect>, ContextError>)
    ensures r.Err? <==> exists i :: 0 <= i < |res.accessedInputs| && Unresolvable(ctx, res.accessedInputs[i])
    ensures r.Err? ==> r.error == KeyError
  {
    match MutableInputPointers(ctx, res.accessedInputs)
    case Err(e) => Err(e)
    case Ok(ins) =>
      Ok(Header(res) + MutationRecords(ins) + ViewGroup(ins + MutableOutputPointers(res.addedOrModified, isMutable)))
  }

  /** Where each part sits in a header, mutation records and a tail laid end to end. */
  lemma PartsIndex(head: seq<SideEffect>, ps: seq<ExecutorPointer>, tail: seq<SideEffect>)
    ensures var es := head + MutationRecords(ps) + tail;
            |es| == |head| + |ps| + |tail| &&
            (forall i :: 0 <= i < |head| ==> es[i] == head[i]) &&
            (forall i :: |head| <= i < |head| + |ps| ==> es[i] == MutatedNode(ps[i - |head|])) &&
            (forall i :: |head| + |ps| <= i < |es| ==> es[i] == tail[i - |head| - |ps|])
  {
  }

  /** The mutation records between a header and a tail that hold none are the only ones. */
  lemma {:induction false} MutatedOfParts(head: seq<SideEffect>, ps: seq<ExecutorPointer>, tail: seq<SideEffect>)
    requires forall i :: 0 <= i < |head| ==> !head[i].MutatedNode?
    requires forall i :: 0 <= i < |tail| ==> !tail[i].MutatedNode?
    ensures Mutated(head + MutationRecords(ps) + tail) == ps
  {
    MutatedConcat(head + MutationRecords(ps), tail);
    MutatedConcat(head, MutationRecords(ps));
    MutatedOfRecords(ps);
    NoMutationIn(head);
    NoMutationIn(tail);
  }

  /** A short header, mutation records and a short tail of view groups come in phase order. */
  lemma {:induction false} PartsInPhaseOrder(head: seq<SideEffect>, ps: seq<ExecutorPointer>, tail: seq<SideEffect>)
    requires |head| <= 1 && forall i :: 0 <= i < |head| ==> head[i].AccessedGlobals?
    requires |tail| <= 1 && forall i :: 0 <= i < |tail| ==> tail[i].ViewOfNodes?
    ensures InPhaseOrder(head + MutationRecords(ps) + tail)
  {
    var es := head + MutationRecords(ps) + tail;
    forall i, j | 0 <= i < j < |es|
      ensures Phase(es[i]) < Phase(es[j]) || (es[i].MutatedNode? && es[j].MutatedNode?)
    {
      if i < |head| {
        assert es[i] == head[i];
      } else if i < |head| + |ps| {
        assert es[i] == MutatedNode(ps[i - |head|]);
        if j < |head| + |ps| {
          assert es[j] == MutatedNode(ps[j - |head|]);
        } else {
          assert es[j] == tail[j - |head| - |ps|];
        }
      }
    }
  }

  /** The computed effects come in phase order: at most one accessed-globals record first, at most one view group last. */
  lemma {:induction false} EffectsInPhaseOrder(ctx: ExecutionContext, res: GlobalsDictResult, isMutable: Value -> bool)
    requires ComputeSideEffects(ctx, res, isMutable).Ok?
    ensures InPhaseOrder(ComputeSideEffects(ctx, res, isMutable).value)
  {
    var ins := MutableInputPointers(ctx, res.accessedInputs).value;
    PartsInPhaseOrder(Header(res), ins, ViewGroup(ins + MutableOutputPointers(res.addedOrModified, isMutable)));
  }

  /** The accessed-globals record appears, and then first, exactly when some input was read or some binding added or changed. */
  lemma {:induction false} AccessedGlobalsWhenTouched(ctx: ExecutionContext, res: GlobalsDictResult, isMutable: Value -> bool)
    requires ComputeSideEffects(ctx, res, isMutable).Ok?
    ensures var es := ComputeSideEffects(ctx, res, isMutable).value;
            (HasAccessedGlobals(es) <==> res.accessedInputs != [] || res.addedOrModified != []) &&
            (HasAccessedGlobals(es) ==> es[0] == AccessedGlobals(res.accessedInputs, Names(res.addedOrModified)))
  {
    var es := ComputeSideEffects(ctx, res, isMutable).value;
    var ins := MutableInputPointers(ctx, res.accessedInputs).value;
    var head := Header(res);
    var tail := ViewGroup(ins + MutableOutputPointers(res.addedOrModified, isMutable));
    assert es == head + MutationRecords(ins) + tail;
    PartsIndex(head, ins, tail);
    if head != [] {
      assert es[0] == head[0];
    }
  }

  /** The mutation records name, in access order, the input id of each accessed name that was mutable at set time. */
  lemma {:induction false} MutatedAreMutableInputs(ctx: ExecutionContext, res: GlobalsDictResult, isMutable: Value -> bool)
    requires ComputeSideEffects(ctx, res, isMutable).Ok?
    ensures var names := MutableNames(ctx, res.accessedInputs);
            var ms := Mutated(ComputeSideEffects(ctx, res, isMutable).value);
            |ms| == |names| &&
            forall i :: 0 <= i < |names| ==> Lookup(ctx.inputNodeIds, names[i]).Some? &&
                                             ms[i] == ID(Lookup(ctx.inputNodeIds, names[i]).value)
  {
    var ins := MutableInputPointers(ctx, res.accessedInputs).value;
    var head := Header(res);
    var tail := ViewGroup(ins + MutableOutputPointers(res.addedOrModified, isMutable));
    assert ComputeSideEffects(ctx, res, isMutable).value == head + MutationRecords(ins) + tail;
    MutatedOfParts(head, ins, tail);
  }

  /**
   * The view group appears, and then last, exactly when the mutable accessed
   * inputs and the mutable new bindings together are more than one pointer;
   * it lists the inputs' ids, then the bindings' names.
   */
  lemma {:induction false} ViewWhenSeveral(ctx: ExecutionContext, res: GlobalsDictResult, isMutable: Value -> bool)
    requires ComputeSideEffects(ctx, res, isMutable).Ok?
    ensures var es := ComputeSideEffects(ctx, res, isMutable).value;
            var views := MutableInputPointers(ctx, res.accessedInputs).value + MutableOutputPointers(res.addedOrModified, isMutable);
            (HasView(es) <==> |views| > 1) &&
            (HasView(es) ==> es[|es| - 1] == ViewOfNodes(views))
  {
    var es := ComputeSideEffects(ctx, res, isMutable).value;
    var ins := MutableInputPointers(ctx, res.accessedInputs).value;
    var head := Header(res);
    var tail := ViewGroup(ins + MutableOutputPointers(res.addedOrModified, isMutable));
    assert es == head + MutationRecords(ins) + tail;
    PartsIndex(head, ins, tail);
    var views := ins + MutableOutputPointers(res.addedOrModified, isMutable);
    if |views| > 1 {
      assert es[|es| - 1] == ViewOfNodes(views);
    }
  }

  /** With no mutable input read and no mutable value bound, nothing is recorded as mutated or aliased. */
  lemma {:induction false} NothingMutable(ctx: ExecutionContext, res: GlobalsDictResult, isMutable: Value -> bool)
    requires ComputeSideEffects(ctx, res, isMutable).Ok?
    requires forall i :: 0 <= i < |res.accessedInputs| ==> !MutableInput(ctx, res.accessedInputs[i])
    requires forall i :: 0 <= i < |res.addedOrModified| ==> !isMutable(res.addedOrModified[i].1)
    ensures var es := ComputeSideEffects(ctx, res, isMutable).value;
            forall i :: 0 <= i < |es| ==> !es[i].MutatedNode? && !es[i].ViewOfNodes?
  {
    var es := ComputeSideEffects(ctx, res, isMutable).value;
    NoMutableNames(ctx, res.accessedInputs);
    NoMutableOutputs(res.addedOrModified, isMutable);
    MutatedAreMutableInputs(ctx, res, isMutable);
    MutatedEmpty(es);
    ViewWhenSeveral(ctx, res, isMutable);
  }

  lemma {:induction false} NoMutableNames(ctx: ExecutionContext, accessed: seq<string>)
    requires forall i :: 0 <= i < |accessed| ==> !MutableInput(ctx, accessed[i])
    ensures MutableNames(ctx, accessed) == []
    decreases |accessed|
  {
    if accessed != [] {
      NoMutableNames(ctx, accessed[..|accessed| - 1]);
    }
  }

  lemma {:induction false} NoMutableOutputs(added: Dict<Value>, isMutable: Value -> bool)
    requires forall i :: 0 <= i < |added| ==> !isMutable(added[i].1)
    ensures MutableOutputPointers(added, isMutable) == []
    decreases |added|
  {
    if added != [] {
      NoMutableOutputs(added[..|added| - 1], isMutable);
    }
  }

  /** A call that read no input and bound nothing produces no side effect at all. */
  lemma {:induction false} NothingTouched(ctx: ExecutionContext, res: GlobalsDictResult, isMutable: Value -> bool)
    requires res.accessedInputs == [] && res.addedOrModified == []
    ensures ComputeSideEffects(ctx, res, isMutable) == Ok([])
  {
    assert MutableInputPointers(ctx, []) == Ok([]);
    assert MutableOutputPointers([], isMutable) == [];
    assert MutationRecords([]) == [];
  }

  /** The one accessed input x, mutable at set time, resolves to its node. */
  lemma {:induction false} OneMutableInput(ctx: ExecutionContext, xid: Id)
    requires ctx.inputNodeIds == [("x", xid)] && ctx.inputGlobalsMutable == map["x" := true]
    ensures MutableInputPointers(ctx, ["x"]) == Ok([ID(xid)])
  {
    assert ["x"][..0] == [];
    assert Lookup(ctx.inputNodeIds, "x") == Some(xid);
    assert MutableInputPointers(ctx, ["x"]) == Ok([] + [ID(xid)]);
    assert [] + [ID(xid)] == [ID(xid)];
  }

  /** The one new binding y, holding a mutable value, becomes a variable pointer. */
  lemma {:induction false} OneMutableOutput(yv: Value, isMutable: Value -> bool)
    requires isMutable(yv)
    ensures MutableOutputPointers([("y", yv)], isMutable) == [Variable("y")]
  {
    var added: Dict<Value> := [("y", yv)];
    assert added[..0] == [];
    assert MutableOutputPointers(added, isMutable) == [] + [Variable("y")];
    assert [] + [Variable("y")] == [Variable("y")];
  }

  /**
   * A call that reads the mutable global x and binds a new mutable y: the
   * accessed-globals record names x as read and y as added, x's node is
   * marked mutated, and x's node and y are views of each other.
   */
  lemma {:induction false} MutableReadNewMutable(ctx: ExecutionContext, xid: Id, yv: Value, isMutable: Value -> bool)
    requires ctx.inputNodeIds == [("x", xid)] && ctx.inputGlobalsMutable == map["x" := true]
    requires isMutable(yv)
    ensures ComputeSideEffects(ctx, GlobalsDictResult(["x"], [("y", yv)]), isMutable)
         == Ok([AccessedGlobals(["x"], ["y"]), MutatedNode(ID(xid)), ViewOfNodes([ID(xid), Variable("y")])])
  {
    var added: Dict<Value> := [("y", yv)];
    OneMutableInput(ctx, xid);
    OneMutableOutput(yv, isMutable);
    assert Names(added) == ["y"];
    assert MutationRecords([ID(xid)]) == [MutatedNode(ID(xid))];
    assert [ID(xid)] + [Variable("y")] == [ID(xid), Variable("y")];
    var a := AccessedGlobals(["x"], ["y"]);
    var v := ViewOfNodes([ID(xid), Variable("y")]);
    assert Header(GlobalsDictResult(["x"], added)) == [a];
    assert ViewGroup([ID(xid)] + [Variable("y")]) == [v];
    assert [a] + [MutatedNode(ID(xid))] + [v] == [a, MutatedNode(ID(xid)), v];
  }

  /** A call that reads an immutable x and binds an immutable y: only the accessed-globals record. */
  lemma {:induction false} PureCall(ctx: ExecutionContext, yv: Value, isMutable: Value -> bool)
    requires "x" in ctx.inputGlobalsMutable && !ctx.inputGlobalsMutable["x"]
    requires !isMutable(yv)
    ensures ComputeSideEffects(ctx, GlobalsDictResult(["x"], [("y", yv)]), isMutable)
         == Ok([AccessedGlobals(["x"], ["y"])])
  {
    var added: Dict<Value> := [("y", yv)];
    assert ["x"][..0] == [] && added[..0] == [];
    assert MutableInputPointers(ctx, ["x"]) == Ok([]);
    assert MutableOutputPointers(added, isMutable) == [];
    assert Names(added) == ["y"];
    assert MutationRecords([]) == [];
    var a := AccessedGlobals(["x"], ["y"]);
    assert Header(GlobalsDictResult(["x"], added)) == [a];
    assert ViewGroup([] + []) == [];
    assert [a] + [] + [] == [a];
  }

  lemma {:induction false} SnapshotOfOne(name: string, id: Id, executor: Executor)
    requires id in executor.idToValue
    ensures Snapshot([(name, id)], executor) == Ok(map[name := executor.idToValue[id]])
  {
    assert [(name, id)][..0] == [];
  }

  /** A call that only reads the mutable global x: x is reported read and its node mutated, with no view group. */
  lemma {:induction false} MutableReadOnly(ctx: ExecutionContext, xid: Id, isMutable: Value -> bool)
    requires ctx.inputNodeIds == [("x", xid)] && ctx.inputGlobalsMutable == map["x" := true]
    ensures ComputeSideEffects(ctx, GlobalsDictResult(["x"], []), isMutable)
         == Ok([AccessedGlobals(["x"], []), MutatedNode(ID(xid))])
  {
    var res := GlobalsDictResult(["x"], []);
    OneMutableInput(ctx, xid);
    assert MutableOutputPointers([], isMutable) == [];
    assert ViewGroup([ID(xid)] + []) == [];
    assert Header(res) == [AccessedGlobals(["x"], [])];
    assert MutationRecords([ID(xid)]) == [MutatedNode(ID(xid))];
    assert [AccessedGlobals(["x"], [])] + [MutatedNode(ID(xid))] + [] == [AccessedGlobals(["x"], []), MutatedNode(ID(xid))];
  }

  // ---------------------------------------------------------------- module state

  /**
   * The two module-level fields: the active context, if any, and the shared
   * globals dictionary that the running call reads and writes.
   */
  class ExecutionState {
    var current: Option<ExecutionContext>
    var globals: map<string, Value>

    /** Between calls: no context, and the globals dictionary cleared. */
    predicate Idle()
      reads this
    {
      current.None? && globals == map[]
    }

    constructor ()
      ensures Idle()
    {
      current := None;
      globals := map[];
    }

    /**
     * `set_context`: refused while a context is active or while the globals
     * dictionary still holds bindings; otherwise the globals become the
     * snapshot of the inputs and a context with their mutability is active.
     */
    method SetContext(executor: Executor, variables: Option<Dict<Id>>, node: Node, isMutable: Value -> bool)
      returns (r: Outcome<ContextError>)
      requires node.kind.CallNode?
      modifies this
      ensures old(current).Some? ==> r == Fail(ContextAlreadySet)
      ensures old(current).None? && old(globals) != map[] ==> r == Fail(GlobalsNotEmpty)
      ensures old(current).None? && old(globals) == map[] ==>
                (r == Pass <==> Snapshot(InputNodeIds(variables, node), executor).Ok?) &&
                (r != Pass ==> r == Fail(KeyError))
      ensures r.Fail? ==> current == old(current) && globals == old(globals)
      ensures r.Pass? ==> var ids := InputNodeIds(variables, node);
                          Snapshot(ids, executor).Ok? &&
                          var snapshot := Snapshot(ids, executor).value;
                          globals == snapshot &&
                          current == Some(ExecutionContext(node, executor, ids, Mutability(snapshot, isMutable), []))
    {
      if current.Some? {
        return Fail(ContextAlreadySet);
      }
      if globals != map[] {
        return Fail(GlobalsNotEmpty);
      }
      var ids := InputNodeIds(variables, node);
      var snapshot := Snapshot(ids, executor);
      if snapshot.Err? {
        return Fail(KeyError);
      }
      globals := snapshot.value;
      current := Some(ExecutionContext(node, executor, ids, Mutability(snapshot.value, isMutable), []));
      r := Pass;
    }

    /** `get_context`. */
    function GetContext(): (r: Result<ExecutionContext, ContextError>)
      reads this
      ensures r.Err? <==> current.None?
      ensures r.Err? ==> r.error == NoContextSet
      ensures r.Ok? ==> current == Some(r.value)
    {
      if current.None? then Err(NoContextSet) else Ok(current.value)
    }

    /** `_is_executing`: whether `get_context` would succeed. */
    predicate IsExecuting()
      reads this
      ensures IsExecuting() <==> current.Some?
    {
      GetContext().Ok?
    }

    /** What a running call does with `get_context().side_effects.append(e)`. */
    method RecordSideEffect(e: SideEffect) returns (r: Outcome<ContextError>)
      modifies this
      ensures old(current).None? ==> r == Fail(NoContextSet) && current == old(current)
      ensures old(current).Some? ==>
                r == Pass && current == Some(old(current).value.(sideEffects := old(current).value.sideEffects + [e]))
      ensures globals == old(globals)
    {
      if current.None? {
        return Fail(NoContextSet);
      }
      current := Some(current.value.(sideEffects := current.value.sideEffects + [e]));
      r := Pass;
    }

    /**
     * `teardown_context`, given what tearing down the globals dictionary
     * reported: refused when no context is active; otherwise the state is idle
     * again and the result is the added or changed bindings with the effects
     * the call recorded, followed by the computed ones.
     */
    method TeardownContext(res: GlobalsDictResult, isMutable: Value -> bool) returns (r: Result<ContextResult, ContextError>)
      modifies this
      ensures old(current).None? ==> r == Err(NoContextSet) && current == old(current) && globals == old(globals)
      ensures old(current).Some? ==> Idle()
      ensures old(current).Some? ==>
                var computed := ComputeSideEffects(old(current).value, res, isMutable);
                (computed.Err? ==> r == Err(KeyError)) &&
                (computed.Ok? ==> r == Ok(ContextResult(res.addedOrModified, old(current).value.sideEffects + computed.value)))
    {
      if current.None? {
        return Err(NoContextSet);
      }
      globals := map[];
      var prev := current.value;
      current := None;
      var computed := ComputeSideEffects(prev, res, isMutable);
      if computed.Err? {
        return Err(KeyError);
      }
      r := Ok(ContextResult(res.addedOrModified, prev.sideEffects + computed.value));
    }
  }

  /**
   * One traced call from start to end: a second set while active is refused,
   * the context is visible while active, the effect the call records comes
   * before the computed ones, and a second teardown is refused.
   */
  method TracedCall(executor: Executor, node: Node, isMutable: Value -> bool, e: SideEffect)
    returns (first: Outcome<ContextError>, again: Outcome<ContextError>, during: bool,
             result: Result<ContextResult, ContextError>, late: Result<ContextResult, ContextError>, after: bool)
    requires node.kind.CallNode? && node.kind.globalReads == [("x", "call_1")]
    requires "call_1" in executor.idToValue && isMutable(executor.idToValue["call_1"])
    ensures first == Pass && again == Fail(ContextAlreadySet) && during
    ensures result == Ok(ContextResult([], [e, AccessedGlobals(["x"], []), MutatedNode(ID("call_1"))]))
    ensures late == Err(NoContextSet) && !after
  {
    var ids: Dict<Id> := [("x", "call_1")];
    var v := executor.idToValue["call_1"];
    SnapshotOfOne("x", "call_1", executor);
    var st := new ExecutionState();
    first := st.SetContext(executor, None, node, isMutable);
    assert Mutability(map["x" := v], isMutable) == map["x" := true];
    var ctx := ExecutionContext(node, executor, ids, map["x" := true], []);
    assert st.current == Some(ctx);
    again := st.SetContext(executor, Some([("y", "call_2")]), node, isMutable);
    during := st.IsExecuting();
    var recorded := st.RecordSideEffect(e);
    var res := GlobalsDictResult(["x"], []);
    assert [] + [e] == [e];
    assert st.current == Some(ctx.(sideEffects := [e]));
    MutableReadOnly(ctx.(sideEffects := [e]), "call_1", isMutable);
    assert [e] + [AccessedGlobals(["x"], []), MutatedNode(ID("call_1"))] == [e, AccessedGlobals(["x"], []), MutatedNode(ID("call_1"))];
    result := st.TeardownContext(res, isMutable);
    late := st.TeardownContext(GlobalsDictResult([], []), isMutable);
    after := st.IsExecuting();
  }
}
