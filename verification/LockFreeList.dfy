/** A list shared by one producer and one consumer without locks, as a machine that takes one load
    or store at a time. A step that follows a pointer to a node that is not allocated is a fault.
    Addresses of freed nodes may be handed out again. */
module LockFreeList {

  type Addr = int
  type Value = int

  const NULL: Addr := 0
  const SENTINEL: Addr := 1  // the node built into the list itself; it is never freed

  datatype Content = Blank | Val(v: Value)

  datatype Node = Node(next: Addr, content: Content)

  /** What a finished pop handed out: nothing, if the caller did not ask for the value. */
  datatype Result = Skipped | Got(content: Content)

  /** Where the producer is inside push; a is the new node, t the tail it has read. */
  datatype Producer =
    | PIdle
    | PCalled(v: Value)
    | PAllocated(a: Addr, v: Value)
    | PFilled(a: Addr, v: Value)
    | PTailRead(a: Addr, v: Value, t: Addr)
    | PLinked(a: Addr, v: Value)
    | PTailSet(v: Value)

  /** Where the consumer is inside pop; keep says whether it wants the value. */
  datatype Consumer =
    | CIdle
    | CCalled(keep: bool)
    | CHeadRead(keep: bool, h: Addr)
    | CSomething(keep: bool)
    | CPreSaved(keep: bool, pre: Addr)
    | CHeadReread(keep: bool, pre: Addr, h: Addr)
    | CNextRead(keep: bool, pre: Addr, n: Addr)
    | CHeadSet(keep: bool, pre: Addr)
    | CHeadForValue(pre: Addr, h: Addr)
    | CTaken(pre: Addr, out: Result)
    | CFreed(out: Result)

  /** The shared memory, the two program counters, and a record of what has happened so far:
      values that pushes began with, values linked in, whether each pop that was begun wants the
      value, the same for the pops that have taken one and what they handed out, and the nodes from
      the head on. */
  datatype State = State(
    heap: map<Addr, Node>, head: Addr, tail: Addr, size: int,
    p: Producer, c: Consumer,
    begun: seq<Value>, pushed: seq<Value>, calls: seq<bool>, asked: seq<bool>, popped: seq<Result>, chain: seq<Addr>)

  datatype Action =
    | Push(v: Value) | Alloc(a: Addr) | Fill | ReadTail | Link | SetTail | Count
    | Pop(keep: bool) | ReadHead | TestNext | SavePre | RereadHead | ReadNext | SetHead
    | ReadHeadForValue | Take | Free | Uncount

  datatype Outcome = Fault | Blocked | Ok(s: State)

  const EMPTY: State :=
    State(map[SENTINEL := Node(NULL, Blank)], SENTINEL, SENTINEL, 0, PIdle, CIdle, [], [], [], [], [], [SENTINEL])

  /** One step. A step that its thread is not about to take is blocked. */
  function Step(s: State, act: Action): Outcome {
    match act
    case Push(v) =>
      if s.p.PIdle? then Ok(s.(p := PCalled(v), begun := s.begun + [v])) else Blocked
    case Alloc(a) =>
      if s.p.PCalled? && a != NULL && a !in s.heap then
        Ok(s.(heap := s.heap[a := Node(NULL, Blank)], p := PAllocated(a, s.p.v)))
      else Blocked
    case Fill =>
      if !s.p.PAllocated? then Blocked
      else if s.p.a !in s.heap then Fault
      else Ok(s.(heap := s.heap[s.p.a := s.heap[s.p.a].(content := Val(s.p.v))], p := PFilled(s.p.a, s.p.v)))
    case ReadTail =>
      if s.p.PFilled? then Ok(s.(p := PTailRead(s.p.a, s.p.v, s.tail))) else Blocked
    case Link =>
      if !s.p.PTailRead? then Blocked
      else if s.p.t !in s.heap then Fault
      else Ok(s.(heap := s.heap[s.p.t := s.heap[s.p.t].(next := s.p.a)], p := PLinked(s.p.a, s.p.v),
                 pushed := s.pushed + [s.p.v], chain := s.chain + [s.p.a]))
    case SetTail =>
      if s.p.PLinked? then Ok(s.(tail := s.p.a, p := PTailSet(s.p.v))) else Blocked
    case Count =>
      if s.p.PTailSet? then Ok(s.(size := s.size + 1, p := PIdle)) else Blocked
    case Pop(keep) =>
      if s.c.CIdle? then Ok(s.(c := CCalled(keep), calls := s.calls + [keep])) else Blocked
    case ReadHead =>
      if s.c.CCalled? then Ok(s.(c := CHeadRead(s.c.keep, s.head))) else Blocked
    case TestNext =>
      if !s.c.CHeadRead? then Blocked
      else if s.c.h !in s.heap then Fault
      else Ok(s.(c := if s.heap[s.c.h].next == NULL then CIdle else CSomething(s.c.keep)))
    case SavePre =>
      if s.c.CSomething? then Ok(s.(c := CPreSaved(s.c.keep, s.head))) else Blocked
    case RereadHead =>
      if s.c.CPreSaved? then Ok(s.(c := CHeadReread(s.c.keep, s.c.pre, s.head))) else Blocked
    case ReadNext =>
      if !s.c.CHeadReread? then Blocked
      else if s.c.h !in s.heap then Fault
      else Ok(s.(c := CNextRead(s.c.keep, s.c.pre, s.heap[s.c.h].next)))
    case SetHead =>
      if s.c.CNextRead? && s.chain != [] then
        Ok(s.(head := s.c.n, c := CHeadSet(s.c.keep, s.c.pre), chain := s.chain[1..]))
      else Blocked
    case ReadHeadForValue =>
      if s.c.CHeadSet? then
        Ok(s.(c := if s.c.keep then CHeadForValue(s.c.pre, s.head) else CTaken(s.c.pre, Skipped)))
      else Blocked
    case Take =>
      if !s.c.CHeadForValue? then Blocked
      else if s.c.h !in s.heap then Fault
      else Ok(s.(heap := s.heap[s.c.h := s.heap[s.c.h].(content := Blank)],
                 c := CTaken(s.c.pre, Got(s.heap[s.c.h].content))))
    case Free =>
      if !s.c.CTaken? then Blocked
      else if s.c.pre == SENTINEL then Ok(s.(c := CFreed(s.c.out)))
      else if s.c.pre !in s.heap then Fault
      else Ok(s.(heap := s.heap - {s.c.pre}, c := CFreed(s.c.out)))
    case Uncount =>
      if s.c.CFreed? then
        Ok(s.(size := s.size - 1, popped := s.popped + [s.c.out], asked := s.asked + [Wanted(s)], c := CIdle))
      else Blocked
  }

  /** Whether the pop begun last wants the value. */
  predicate Wanted(s: State) {
    s.calls != [] && s.calls[|s.calls| - 1]
  }

  /** A run from a state: the steps one after the other. */
  function Run(s: State, acts: seq<Action>): Outcome
    decreases acts
  {
    if acts == [] then Ok(s)
    else match Step(s, acts[0])
         case Ok(t) => Run(t, acts[1..])
         case o => o
  }

  // ---------------------------------------------------------------- the invariant

  function B(b: bool): int { if b then 1 else 0 }

  /** Number of nodes the head has moved past. */
  function Passed(s: State): int {
    |s.popped| + B(s.c.CHeadSet? || s.c.CHeadForValue? || s.c.CTaken? || s.c.CFreed?)
  }

  /** The node a consumer is about to free. */
  function Doomed(s: State): set<Addr> {
    if s.c.CHeadSet? || s.c.CHeadForValue? || s.c.CTaken? then {s.c.pre} else {}
  }

  /** The node a producer has not linked in yet. */
  function Private(s: State): set<Addr> {
    if s.p.PAllocated? || s.p.PFilled? || s.p.PTailRead? then {s.p.a} else {}
  }

  function Nodes(chain: seq<Addr>): set<Addr> {
    set a | a in chain
  }

  /** The nodes from the head on form one list that ends in NULL. */
  ghost predicate ChainOk(s: State) {
    && s.chain != [] && s.chain[0] == s.head
    && (forall i, j :: 0 <= i < j < |s.chain| ==> s.chain[i] != s.chain[j])
    && (forall i {:trigger InList(s, i)} :: 0 <= i < |s.chain| ==> InList(s, i))
  }

  /** Node i of the list is allocated and leads to the next one. */
  ghost predicate InList(s: State, i: nat)
    requires i < |s.chain|
  {
    && s.chain[i] in s.heap && s.chain[i] != NULL
    && s.heap[s.chain[i]].next == NextIn(s.chain, i)
    && (0 < i ==> s.chain[i] != SENTINEL)
  }

  function NextIn(chain: seq<Addr>, i: nat): Addr {
    if i + 1 < |chain| then chain[i + 1] else NULL
  }

  /** The values still in the list, in order, and the ones handed out. */
  ghost predicate ValuesOk(s: State)
    requires ChainOk(s)
  {
    && Passed(s) + |s.chain| - 1 == |s.pushed|
    && (forall i {:trigger HoldsValue(s, i)} :: 0 < i < |s.chain| ==> HoldsValue(s, i))
    && |s.asked| == |s.popped|
    && (forall i :: 0 <= i < |s.popped| ==> s.popped[i] == Answer(s.asked[i], s.pushed[i]))
    && (s.c.CHeadSet? || s.c.CHeadForValue? ==> HoldsValue(s, 0))
    && (s.c.CTaken? || s.c.CFreed? ==> s.c.out == Answer(Wanted(s), s.pushed[|s.popped|]))
  }

  /** What a pop that reaches this value has to hand out. */
  function Answer(keep: bool, v: Value): Result {
    if keep then Got(Val(v)) else Skipped
  }

  /** The consumer goes by what its caller asked for. */
  ghost predicate CallOk(s: State) {
    && (!s.c.CIdle? ==> s.calls != [])
    && (s.c.CCalled? || s.c.CHeadRead? || s.c.CSomething? || s.c.CPreSaved? ==> s.c.keep == Wanted(s))
    && (s.c.CHeadReread? || s.c.CNextRead? || s.c.CHeadSet? ==> s.c.keep == Wanted(s))
    && (s.c.CHeadForValue? ==> Wanted(s))
  }

  /** Node i of the list holds the value pushed i places after the last one passed. */
  ghost predicate HoldsValue(s: State, i: nat)
    requires i < |s.chain|
  {
    && s.chain[i] in s.heap && 0 <= Passed(s) + i - 1 < |s.pushed|
    && s.heap[s.chain[i]].content == Val(s.pushed[Passed(s) + i - 1])
  }

  /** Exactly the nodes in use are allocated: nothing dangles and nothing leaks. */
  ghost predicate HeapOk(s: State) {
    && s.heap.Keys == Nodes(s.chain) + Private(s) + Doomed(s) + {SENTINEL}
    && Private(s) !! Nodes(s.chain) + Doomed(s) + {SENTINEL, NULL}
    && Doomed(s) !! Nodes(s.chain)
    && (s.p.PAllocated? ==> s.heap[s.p.a].next == NULL)
    && (s.p.PFilled? || s.p.PTailRead? ==> s.heap[s.p.a] == Node(NULL, Val(s.p.v)))
  }

  ghost predicate ProducerOk(s: State)
    requires ChainOk(s)
  {
    && (s.p.PLinked? ==> s.p.a == s.chain[|s.chain| - 1])
    && (!s.p.PLinked? ==> s.tail == s.chain[|s.chain| - 1])
    && (s.p.PTailRead? ==> s.p.t == s.tail)
    && s.begun == s.pushed +
         (if s.p.PCalled? || s.p.PAllocated? || s.p.PFilled? || s.p.PTailRead? then [s.p.v] else [])
  }

  ghost predicate ConsumerOk(s: State)
    requires ChainOk(s)
  {
    && (s.c.CHeadRead? ==> s.c.h == s.head)
    && (s.c.CSomething? || s.c.CPreSaved? || s.c.CHeadReread? || s.c.CNextRead? ==> 1 < |s.chain|)
    && (s.c.CPreSaved? || s.c.CHeadReread? || s.c.CNextRead? ==> s.c.pre == s.head)
    && (s.c.CHeadReread? || s.c.CHeadForValue? ==> s.c.h == s.head)
    && (s.c.CNextRead? ==> s.c.n == s.chain[1])
  }

  ghost predicate SizeOk(s: State) {
    s.size == |s.pushed| - B(s.p.PLinked? || s.p.PTailSet?) - |s.popped|
  }

  ghost predicate Inv(s: State) {
    ChainOk(s) && ValuesOk(s) && HeapOk(s) && ProducerOk(s) && ConsumerOk(s) && CallOk(s) && SizeOk(s)
  }

  // ---------------------------------------------------------------- every step keeps it

  lemma {:induction false} EmptyInv()
    ensures Inv(EMPTY)
  {
  }

  /** A step that leaves the listed nodes alone leaves the list alone. */
  lemma {:induction false} ListKept(s: State, t: State)
    requires ChainOk(s) && ValuesOk(s)
    requires t.chain == s.chain && t.head == s.head && t.pushed == s.pushed && t.popped == s.popped && t.asked == s.asked
    requires Passed(t) == Passed(s)
    requires forall a :: a in Nodes(s.chain) && a in s.heap ==> a in t.heap && t.heap[a] == s.heap[a]
    requires t.c.CHeadSet? || t.c.CHeadForValue? ==> s.c.CHeadSet? || s.c.CHeadForValue?
    requires t.c.CTaken? || t.c.CFreed? ==> t.c.out == Answer(Wanted(t), s.pushed[|s.popped|])
    ensures ChainOk(t) && ValuesOk(t)
  {
    forall i | 0 <= i < |t.chain| ensures InList(t, i) {
      assert InList(s, i);
      assert s.chain[i] in Nodes(s.chain);
    }
    forall i | 0 < i < |t.chain| ensures HoldsValue(t, i) {
      assert HoldsValue(s, i);
      assert s.chain[i] in Nodes(s.chain);
    }
    if t.c.CHeadSet? || t.c.CHeadForValue? {
      assert s.chain[0] in Nodes(s.chain);
    }
  }

  predicate IsProducerAction(act: Action) {
    act.Push? || act.Alloc? || act.Fill? || act.ReadTail? || act.Link? || act.SetTail? || act.Count?
  }

  lemma {:induction false} ProducerStep(s: State, act: Action)
    requires Inv(s) && IsProducerAction(act) && !act.Link?
    ensures Step(s, act) != Fault
    ensures Step(s, act).Ok? ==> Inv(Step(s, act).s)
  {
    if act.Alloc? || act.Fill? {
      NodeStep(s, act);
    } else if Step(s, act).Ok? {
      ListKept(s, Step(s, act).s);
    }
  }

  /** The new node is of no concern to anyone else yet. */
  lemma {:induction false} NodeStep(s: State, act: Action)
    requires Inv(s) && (act.Alloc? || act.Fill?)
    ensures Step(s, act) != Fault
    ensures Step(s, act).Ok? ==> Inv(Step(s, act).s)
  {
    if Step(s, act).Ok? {
      ListKept(s, Step(s, act).s);
    }
  }

  lemma {:induction false} LinkStep(s: State)
    requires Inv(s) && s.p.PTailRead?
    ensures Step(s, Link).Ok? && Inv(Step(s, Link).s)
  {
    var n := |s.chain|;
    assert InList(s, n - 1);
    assert s.chain[n - 1] in Nodes(s.chain) && s.p.a in Private(s);
    var t := Step(s, Link).s;
    LinkedList(s, t);
    LinkedValues(s, t);
    assert Nodes(t.chain) == Nodes(s.chain) + {s.p.a} by {
      assert t.chain == s.chain + [s.p.a];
    }
  }

  lemma {:induction false} LinkedList(s: State, t: State)
    requires Inv(s) && s.p.PTailRead? && Step(s, Link) == Ok(t)
    ensures ChainOk(t)
  {
    var n := |s.chain|;
    assert s.p.a in Private(s) && s.chain[n - 1] in Nodes(s.chain);
    assert t.chain[n] == s.p.a;
    forall i | 0 <= i < |t.chain| ensures InList(t, i) {
      if i < n {
        assert InList(s, i);
        assert s.chain[i] in Nodes(s.chain);
      }
    }
    forall i, j | 0 <= i < j < |t.chain| ensures t.chain[i] != t.chain[j] {
      assert s.chain[i] in Nodes(s.chain);
    }
  }

  lemma {:induction false} LinkedValues(s: State, t: State)
    requires Inv(s) && s.p.PTailRead? && Step(s, Link) == Ok(t) && ChainOk(t)
    ensures ValuesOk(t)
  {
    var n := |s.chain|;
    assert s.p.a in Private(s) && s.chain[n - 1] in Nodes(s.chain);
    forall i | 0 <= i < |t.chain| && (i == 0 ==> HoldsValue(s, 0)) ensures HoldsValue(t, i) {
      if i < n {
        assert HoldsValue(s, i);
        assert s.chain[i] in Nodes(s.chain);
      }
    }
  }

  lemma {:induction false} ConsumerStep(s: State, act: Action)
    requires Inv(s) && !IsProducerAction(act) && !act.SetHead? && !act.Take? && !act.Free? && !act.Uncount?
    ensures Step(s, act) != Fault
    ensures Step(s, act).Ok? ==> Inv(Step(s, act).s)
  {
    assert InList(s, 0);
    assert s.chain[0] in Nodes(s.chain);
    if Step(s, act).Ok? {
      ListKept(s, Step(s, act).s);
    }
  }

  lemma {:induction false} FreeStep(s: State)
    requires Inv(s)
    ensures Step(s, Free) != Fault
    ensures Step(s, Free).Ok? ==> Inv(Step(s, Free).s)
  {
    if Step(s, Free).Ok? {
      ListKept(s, Step(s, Free).s);
    }
  }

  lemma {:induction false} UncountStep(s: State)
    requires Inv(s)
    ensures Step(s, Uncount) != Fault
    ensures Step(s, Uncount).Ok? ==> Inv(Step(s, Uncount).s)
  {
    if s.c.CFreed? {
      Finished(s);
    }
  }

  lemma {:induction false} Finished(s: State)
    requires Inv(s) && s.c.CFreed?
    ensures ChainOk(Step(s, Uncount).s) && ValuesOk(Step(s, Uncount).s)
  {
    var t := Step(s, Uncount).s;
    forall i | 0 <= i < |t.chain| ensures InList(t, i) {
      assert InList(s, i);
    }
    forall i | 0 < i < |t.chain| ensures HoldsValue(t, i) {
      assert HoldsValue(s, i);
    }
  }

  lemma {:induction false} TakeStep(s: State)
    requires Inv(s) && s.c.CHeadForValue?
    ensures Step(s, Take).Ok? && Inv(Step(s, Take).s)
  {
    assert InList(s, 0);
    var t := Step(s, Take).s;
    assert s.chain[0] in Nodes(s.chain);
    forall i | 0 <= i < |t.chain| ensures InList(t, i) {
      assert InList(s, i);
    }
    forall i | 0 < i < |t.chain| ensures HoldsValue(t, i) {
      assert HoldsValue(s, i);
      assert s.chain[0] != s.chain[i];
    }
    assert HoldsValue(s, 0);
  }

  lemma {:induction false} SetHeadStep(s: State)
    requires Inv(s) && s.c.CNextRead?
    ensures Step(s, SetHead).Ok? && Inv(Step(s, SetHead).s)
  {
    var t := Step(s, SetHead).s;
    forall i | 0 <= i < |t.chain| ensures InList(t, i) && HoldsValue(t, i) {
      assert InList(s, i + 1);
      assert HoldsValue(s, i + 1);
    }
    TailNodes(s.chain);
  }

  lemma {:induction false} TailNodes(chain: seq<Addr>)
    requires chain != [] && forall i, j :: 0 <= i < j < |chain| ==> chain[i] != chain[j]
    ensures Nodes(chain) == Nodes(chain[1..]) + {chain[0]} && chain[0] !in Nodes(chain[1..])
  {
    assert chain == [chain[0]] + chain[1..];
  }

  /** No step faults, and every step keeps the invariant. */
  lemma {:induction false} AnyStep(s: State, act: Action)
    requires Inv(s)
    ensures Step(s, act) != Fault
    ensures Step(s, act).Ok? ==> Inv(Step(s, act).s)
  {
    if act.Link? {
      if s.p.PTailRead? { LinkStep(s); }
    } else if act.SetHead? {
      if s.c.CNextRead? { SetHeadStep(s); }
    } else if act.Take? {
      if s.c.CHeadForValue? { TakeStep(s); }
    } else if act.Free? {
      FreeStep(s);
    } else if act.Uncount? {
      UncountStep(s);
    } else if IsProducerAction(act) {
      ProducerStep(s, act);
    } else {
      ConsumerStep(s, act);
    }
  }

  // ---------------------------------------------------------------- every run

  lemma {:induction false} RunFrom(s: State, acts: seq<Action>)
    requires Inv(s)
    ensures Run(s, acts) != Fault
    ensures Run(s, acts).Ok? ==> Inv(Run(s, acts).s)
    decreases acts
  {
    if acts != [] {
      AnyStep(s, acts[0]);
      if Step(s, acts[0]).Ok? {
        RunFrom(Step(s, acts[0]).s, acts[1..]);
      }
    }
  }

  /** The values that the pushes of a run were called with, and whether its pops want the value. */
  function PushCalls(acts: seq<Action>): seq<Value> {
    if acts == [] then [] else (if acts[0].Push? then [acts[0].v] else []) + PushCalls(acts[1..])
  }

  function PopCalls(acts: seq<Action>): seq<bool> {
    if acts == [] then [] else (if acts[0].Pop? then [acts[0].keep] else []) + PopCalls(acts[1..])
  }

  /** The record of calls is the calls of the run. */
  lemma {:induction false} CallsRecorded(s: State, acts: seq<Action>)
    ensures Run(s, acts).Ok? ==>
              && Run(s, acts).s.begun == s.begun + PushCalls(acts)
              && Run(s, acts).s.calls == s.calls + PopCalls(acts)
    decreases acts
  {
    if acts != [] && Step(s, acts[0]).Ok? {
      var t := Step(s, acts[0]).s;
      CallsRecorded(t, acts[1..]);
      OneCall(s, acts[0]);
    }
  }

  lemma {:induction false} OneCall(s: State, act: Action)
    requires Step(s, act).Ok?
    ensures Step(s, act).s.begun == s.begun + if act.Push? then [act.v] else []
    ensures Step(s, act).s.calls == s.calls + if act.Pop? then [act.keep] else []
  {
  }

  /** In every interleaving: no step touches a freed node, values come out in the order in which
      pushes began, every pop that takes a value hands it out if and only if its caller asked for it,
      and between calls the counter is exact and the only nodes allocated are the ones in the list. */
  lemma {:induction false} EveryRunIsSafe(acts: seq<Action>)
    ensures Run(EMPTY, acts) != Fault
    ensures Run(EMPTY, acts).Ok? ==>
              var s := Run(EMPTY, acts).s;
              && s.begun == PushCalls(acts) && s.calls == PopCalls(acts)
              && s.pushed <= s.begun && |s.begun| <= |s.pushed| + 1
              && |s.asked| == |s.popped| <= |s.pushed|
              && (forall i :: 0 <= i < |s.popped| ==> s.popped[i] == if s.asked[i] then Got(Val(s.begun[i])) else Skipped)
              && -1 <= s.size <= |s.pushed| - |s.popped|
              && (s.p.PIdle? && s.c.CIdle? ==>
                    && s.begun == s.pushed
                    && s.size == |s.pushed| - |s.popped| == |s.chain| - 1
                    && s.heap.Keys == Nodes(s.chain) + {SENTINEL}
                    && (s.head == s.tail <==> s.size == 0))
  {
    EmptyInv();
    RunFrom(EMPTY, acts);
    CallsRecorded(EMPTY, acts);
    if Run(EMPTY, acts).Ok? {
      var s := Run(EMPTY, acts).s;
      assert s.pushed <= s.begun;
      if s.p.PIdle? && 1 < |s.chain| {
        assert s.chain[0] != s.chain[|s.chain| - 1];
      }
    }
  }

  /** A pop that takes a value is recorded with what its caller asked, when it returns. */
  lemma {:induction false} AskedIsCalled(s: State, act: Action)
    requires Inv(s) && Step(s, act).Ok? && Step(s, act).s.asked != s.asked
    ensures act == Uncount && s.calls != [] && Step(s, act).s.asked == s.asked + [s.calls[|s.calls| - 1]]
    ensures Step(s, act).s.calls == s.calls && Step(s, act).s.c == CIdle
  {
  }

  /** Pop answers "empty" exactly when everything linked in has been taken out. */
  lemma {:induction false} PopTestsEmptiness(s: State)
    requires Inv(s) && s.c.CHeadRead?
    ensures Step(s, TestNext).Ok?
    ensures Step(s, TestNext).s.c.CIdle? <==> |s.popped| == |s.pushed|
  {
    assert InList(s, 0);
    if 1 < |s.chain| { assert InList(s, 1); }
  }

  lemma {:induction false} Trace1(t: State)
    requires t == EMPTY.(heap := map[SENTINEL := Node(NULL, Blank), 2 := Node(NULL, Val(7))],
                          p := PTailRead(2, 7, SENTINEL), begun := [7])
    ensures Run(EMPTY, [Push(7), Alloc(2), Fill, ReadTail]) == Ok(t)
  {
    var acts := [Push(7), Alloc(2), Fill, ReadTail];
    assert acts[1..] == [Alloc(2), Fill, ReadTail] && acts[1..][1..] == [Fill, ReadTail];
    assert acts[1..][1..][1..] == [ReadTail] && acts[1..][1..][1..][1..] == [];
  }

  lemma {:induction false} Trace2(s: State, t: State)
    requires s.heap == map[SENTINEL := Node(NULL, Blank), 2 := Node(NULL, Val(7))] && s.head == SENTINEL
    requires s.p == PTailRead(2, 7, SENTINEL) && s.c == CIdle && s.pushed == [] && s.calls == [] && s.chain == [SENTINEL]
    requires t == s.(heap := map[SENTINEL := Node(2, Blank), 2 := Node(NULL, Val(7))], p := PLinked(2, 7),
                  c := CSomething(true), pushed := [7], calls := [true], chain := [SENTINEL, 2])
    ensures Run(s, [Link, Pop(true), ReadHead, TestNext]) == Ok(t)
  {
    var acts := [Link, Pop(true), ReadHead, TestNext];
    assert acts[1..] == [Pop(true), ReadHead, TestNext] && acts[1..][1..] == [ReadHead, TestNext];
    assert acts[1..][1..][1..] == [TestNext] && acts[1..][1..][1..][1..] == [];
  }

  lemma {:induction false} Trace3(s: State, t: State)
    requires s.heap == map[SENTINEL := Node(2, Blank), 2 := Node(NULL, Val(7))] && s.head == SENTINEL
    requires s.c == CSomething(true) && s.chain == [SENTINEL, 2]
    requires t == s.(head := 2, c := CHeadSet(true, SENTINEL), chain := [2])
    ensures Run(s, [SavePre, RereadHead, ReadNext, SetHead]) == Ok(t)
  {
    var acts := [SavePre, RereadHead, ReadNext, SetHead];
    assert acts[1..] == [RereadHead, ReadNext, SetHead] && acts[1..][1..] == [ReadNext, SetHead];
    assert acts[1..][1..][1..] == [SetHead] && acts[1..][1..][1..][1..] == [];
  }

  lemma {:induction false} Trace4(s: State, t: State)
    requires s.heap == map[SENTINEL := Node(2, Blank), 2 := Node(NULL, Val(7))] && s.head == 2
    requires s.c == CHeadSet(true, SENTINEL) && s.size == 0 && s.popped == [] && s.asked == [] && s.calls == [true]
    requires t == s.(heap := map[SENTINEL := Node(2, Blank), 2 := Node(NULL, Blank)], c := CIdle,
                  size := -1, asked := [true], popped := [Got(Val(7))])
    ensures Run(s, [ReadHeadForValue, Take, Free, Uncount]) == Ok(t)
  {
    var acts := [ReadHeadForValue, Take, Free, Uncount];
    assert s.heap[2 := Node(NULL, Blank)] == map[SENTINEL := Node(2, Blank), 2 := Node(NULL, Blank)];
    assert acts[1..] == [Take, Free, Uncount] && acts[1..][1..] == [Free, Uncount];
    assert acts[1..][1..][1..] == [Uncount] && acts[1..][1..][1..][1..] == [];
  }

  /** Between the link and the count of one push, a pop can bring the counter below zero. */
  lemma {:induction false} CounterCanGoNegative() returns (acts: seq<Action>)
    ensures Run(EMPTY, acts).Ok? && Run(EMPTY, acts).s.size == -1
  {
    var a1 := [Push(7), Alloc(2), Fill, ReadTail];
    var a2 := [Link, Pop(true), ReadHead, TestNext];
    var a3 := [SavePre, RereadHead, ReadNext, SetHead];
    var a4 := [ReadHeadForValue, Take, Free, Uncount];
    var s1 := EMPTY.(heap := map[SENTINEL := Node(NULL, Blank), 2 := Node(NULL, Val(7))],
                     p := PTailRead(2, 7, SENTINEL), begun := [7]);
    var s2 := s1.(heap := map[SENTINEL := Node(2, Blank), 2 := Node(NULL, Val(7))], p := PLinked(2, 7),
                  c := CSomething(true), pushed := [7], calls := [true], chain := [SENTINEL, 2]);
    var s3 := s2.(head := 2, c := CHeadSet(true, SENTINEL), chain := [2]);
    var s4 := s3.(heap := map[SENTINEL := Node(2, Blank), 2 := Node(NULL, Blank)], c := CIdle,
                  size := -1, asked := [true], popped := [Got(Val(7))]);
    Trace1(s1);
    Trace2(s1, s2);
    Trace3(s2, s3);
    Trace4(s3, s4);
    RunJoin(EMPTY, a1, a2);
    RunJoin(EMPTY, a1 + a2, a3);
    RunJoin(EMPTY, a1 + a2 + a3, a4);
    acts := a1 + a2 + a3 + a4;
  }

  lemma {:induction false} RunJoin(s: State, a: seq<Action>, b: seq<Action>)
    requires Run(s, a).Ok?
    ensures Run(s, a + b) == Run(Run(s, a).s, b)
    decreases a
  {
    if a == [] {
      assert a + b == b;
    } else {
      assert (a + b)[1..] == a[1..] + b;
      RunJoin(Step(s, a[0]).s, a[1..], b);
    }
  }

  // ---------------------------------------------------------------- nobody waits

  function StepsLeftPush(p: Producer): nat {
    match p
    case PIdle => 0
    case PCalled(_) => 6
    case PAllocated(_, _) => 5
    case PFilled(_, _) => 4
    case PTailRead(_, _, _) => 3
    case PLinked(_, _) => 2
    case PTailSet(_) => 1
  }

  function StepsLeftPop(c: Consumer): nat {
    match c
    case CIdle => 0
    case CCalled(_) => 10
    case CHeadRead(_, _) => 9
    case CSomething(_) => 8
    case CPreSaved(_, _) => 7
    case CHeadReread(_, _, _) => 6
    case CNextRead(_, _, _) => 5
    case CHeadSet(_, _) => 4
    case CHeadForValue(_, _) => 3
    case CTaken(_, _) => 2
    case CFreed(_) => 1
  }

  /** Whatever the other thread has done, a push under way can take its next step. */
  lemma {:induction false} PushGoesOn(s: State, spare: Addr) returns (act: Action)
    requires Inv(s) && spare != NULL && spare !in s.heap && !s.p.PIdle?
    ensures IsProducerAction(act) && Step(s, act).Ok?
  {
    act := match s.p
      case PIdle => Count
      case PCalled(_) => Alloc(spare)
      case PAllocated(_, _) => Fill
      case PFilled(_, _) => ReadTail
      case PTailRead(_, _, _) => Link
      case PLinked(_, _) => SetTail
      case PTailSet(_) => Count;
    AnyStep(s, act);
  }

  /** So can a pop. */
  lemma {:induction false} PopGoesOn(s: State) returns (act: Action)
    requires Inv(s) && !s.c.CIdle?
    ensures !IsProducerAction(act) && Step(s, act).Ok?
  {
    act := match s.c
      case CIdle => Uncount
      case CCalled(_) => ReadHead
      case CHeadRead(_, _) => TestNext
      case CSomething(_) => SavePre
      case CPreSaved(_, _) => RereadHead
      case CHeadReread(_, _, _) => ReadNext
      case CNextRead(_, _, _) => SetHead
      case CHeadSet(_, _) => ReadHeadForValue
      case CHeadForValue(_, _) => Take
      case CTaken(_, _) => Free
      case CFreed(_) => Uncount;
    AnyStep(s, act);
  }

  /** A push is done after six steps of its own and a pop after at most ten, whatever the other
      thread does in between: no step of one moves the other's place. */
  lemma {:induction false} ThreadsApart(s: State, act: Action)
    requires Step(s, act).Ok?
    ensures IsProducerAction(act) ==>
              && Step(s, act).s.c == s.c
              && (act.Push? || StepsLeftPush(Step(s, act).s.p) == StepsLeftPush(s.p) - 1)
    ensures !IsProducerAction(act) ==>
              && Step(s, act).s.p == s.p
              && (act.Pop? || StepsLeftPop(Step(s, act).s.c) < StepsLeftPop(s.c))
  {
  }

  // ---------------------------------------------------------------- destruction

  /** Between calls the destructor frees every node but the built-in one, each exactly once. */
  method Destroy(s: State) returns (heap: map<Addr, Node>)
    requires Inv(s) && s.p.PIdle? && s.c.CIdle?
    ensures heap.Keys == {SENTINEL}
  {
    heap := s.heap;
    var phead := s.head;
    ghost var i := 0;
    assert s.chain[0..] == s.chain;
    NoNull(s);
    while phead != NULL
      invariant 0 <= i <= |s.chain| && Remaining(s, heap, i)
      invariant phead == if i < |s.chain| then s.chain[i] else NULL
      decreases |s.chain| - i
    {
      DestroyOne(s, heap, i);
      var pre := phead;
      phead := heap[phead].next;
      if pre != SENTINEL {
        heap := heap - {pre};
      }
      i := i + 1;
    }
  }

  lemma {:induction false} NoNull(s: State)
    requires ChainOk(s)
    ensures forall i :: 0 <= i < |s.chain| ==> s.chain[i] != NULL
  {
    forall i | 0 <= i < |s.chain| ensures s.chain[i] != NULL {
      assert InList(s, i);
    }
  }

  /** What is still allocated when the destructor has come to node i. */
  ghost predicate Remaining(s: State, heap: map<Addr, Node>, i: nat) {
    && i <= |s.chain|
    && heap.Keys == Nodes(s.chain[i..]) + {SENTINEL}
    && (forall a {:trigger heap[a]} :: a in heap ==> a in s.heap && heap[a] == s.heap[a])
  }

  lemma {:induction false} DestroyOne(s: State, heap: map<Addr, Node>, i: nat)
    requires ChainOk(s) && Remaining(s, heap, i) && i < |s.chain|
    ensures s.chain[i] in heap && heap[s.chain[i]].next == NextIn(s.chain, i)
    ensures Remaining(s, if s.chain[i] != SENTINEL then heap - {s.chain[i]} else heap, i + 1)
  {
    assert InList(s, i);
    TailNodesAt(s.chain, i);
    var a := heap[s.chain[i]];
  }

  lemma {:induction false} TailNodesAt(chain: seq<Addr>, i: nat)
    requires i < |chain| && forall i, j :: 0 <= i < j < |chain| ==> chain[i] != chain[j]
    ensures Nodes(chain[i..]) == Nodes(chain[i + 1..]) + {chain[i]} && chain[i] !in Nodes(chain[i + 1..])
  {
    assert chain[i..][1..] == chain[i + 1..];
    TailNodes(chain[i..]);
  }
}
