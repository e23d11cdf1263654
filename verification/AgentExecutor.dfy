/**
 * The lazily built, persistent agent graph: any number of concurrent `get_agent_executor` calls share
 * three globals behind a double-checked lock. One transition is one statement of one call, so every
 * interleaving the event loop can produce (and more) is a run of this system.
 */
module AgentExecutor {
  import opened PyText

  type CallId = nat

  /** The graph over process memory, built at import, or one over a database checkpointer. */
  datatype Graph = InMemory | Persistent(saver: nat)

  /** Where a call stands; `Done` carries the value of its `return` expression. */
  datatype Pc =
    | Enter
    | FastReturn
    | Waiting
    | Checking
    | Starting
    | OpeningSaver
    | SettingUp
    | Compiling
    | Assigning(built: Option<Graph>)
    | Releasing
    | Returning
    | Done(result: Option<Graph>)
    | Aborted

  datatype State = State(
    executor: Option<Graph>,   // _persistent_executor
    tried: bool,               // _persistent_tried
    saverOpen: bool,           // _persistent_cm is set
    lock: Option<CallId>,      // holder of _persistent_lock
    calls: map<CallId, Pc>,
    inits: nat)                // how often _init_persistent_executor has been started

  const START := State(None, false, false, None, map[], 0)

  /** Python's `x or y` on graphs, which are always true. */
  function Or(x: Option<Graph>, y: Option<Graph>): Option<Graph> {
    if x.Some? then x else y
  }

  predicate Initialising(pc: Pc) {
    pc.Starting? || pc.OpeningSaver? || pc.SettingUp? || pc.Compiling? || pc.Assigning?
  }

  predicate Holding(pc: Pc) {
    pc.Checking? || Initialising(pc) || pc.Releasing?
  }

  predicate Finished(pc: Pc) {
    pc.Done? || pc.Aborted?
  }

  function Goto(s: State, c: CallId, pc: Pc): State {
    s.(calls := s.calls[c := pc])
  }

  /** One statement of call `c`. */
  ghost predicate Advance(s: State, s': State, c: CallId)
    requires c in s.calls
  {
    match s.calls[c]
    case Enter => s' == Goto(s, c, if s.executor.Some? then FastReturn else Waiting)
    case FastReturn => s' == Goto(s, c, Done(s.executor))
    case Waiting => s.lock.None? && s' == Goto(s.(lock := Some(c)), c, Checking)
    case Checking =>
      if s.executor.None? && !s.tried then s' == Goto(s.(tried := true), c, Starting)
      else s' == Goto(s, c, Releasing)
    case Starting =>
      // the optional import either works or makes the initialiser return None
      var t := s.(inits := s.inits + 1);
      s' == Goto(t, c, OpeningSaver) || s' == Goto(t, c, Assigning(None))
    case OpeningSaver => s' == Goto(s, c, SettingUp) || s' == Goto(s, c, Assigning(None))
    case SettingUp =>
      s' == Goto(s.(saverOpen := true), c, Compiling) || s' == Goto(s, c, Assigning(None))
    case Compiling =>
      || s' == Goto(s, c, Assigning(None))
      || exists n :: s' == Goto(s, c, Assigning(Some(Persistent(n))))
    case Assigning(built) => s' == Goto(s.(executor := built), c, Releasing)
    case Releasing => s' == Goto(s.(lock := None), c, Returning)
    case Returning => s' == Goto(s, c, Done(Or(s.executor, Some(InMemory))))
    case Done(_) => false
    case Aborted => false
  }

  /** Cancellation, or any exception the initialiser does not catch: the lock is released on the way out. */
  ghost predicate Abort(s: State, s': State, c: CallId)
    requires c in s.calls
  {
    && !Finished(s.calls[c])
    && s' == Goto(if Holding(s.calls[c]) then s.(lock := None) else s, c, Aborted)
  }

  ghost predicate StepOf(s: State, s': State, c: CallId) {
    if c in s.calls then Advance(s, s', c) || Abort(s, s', c)
    else s' == Goto(s, c, Enter)
  }

  ghost predicate Next(s: State, s': State) {
    exists c :: StepOf(s, s', c)
  }

  ghost predicate IsRun(run: seq<State>) {
    && run != [] && run[0] == START
    && forall i :: 0 <= i < |run| - 1 ==> Next(run[i], run[i + 1])
  }

  // ---------------------------------------------------------------- the invariant

  /** The choice of graph is settled: initialisation was tried and is over. */
  ghost predicate Decided(s: State) {
    s.tried && forall c :: c in s.calls ==> !Initialising(s.calls[c])
  }

  function Choice(s: State): Option<Graph> {
    Or(s.executor, Some(InMemory))
  }

  ghost predicate CallOk(s: State, c: CallId)
    requires c in s.calls
  {
    var pc := s.calls[c];
    && (Holding(pc) <==> s.lock == Some(c))
    && (Initialising(pc) ==> s.tried && s.executor.None?)
    && (pc.Starting? ==> s.inits == 0)
    && (pc.Compiling? || (pc.Assigning? && pc.built.Some?) ==> s.saverOpen)
    && (pc.Assigning? && pc.built.Some? ==> pc.built.value.Persistent?)
    && (pc.FastReturn? ==> s.executor.Some?)
    && (pc.Releasing? || pc.Returning? || pc.Done? ==> Decided(s))
    && (pc.Done? ==> pc.result == Choice(s))
  }

  ghost predicate Inv(s: State) {
    && (forall c :: c in s.calls ==> CallOk(s, c))
    && (s.lock.Some? ==> s.lock.value in s.calls)
    && (!s.tried ==> s.inits == 0)
    && s.inits <= 1
    && (s.executor.Some? ==> Decided(s) && s.executor.value.Persistent? && s.saverOpen)
  }

  /** A settled choice is never undone or changed. */
  lemma DecisionStable(s: State, s': State, c: CallId)
    requires Inv(s) && StepOf(s, s', c) && Decided(s)
    ensures Decided(s') && Choice(s') == Choice(s)
  {
    if c in s.calls {
      assert CallOk(s, c);
      assert !Initialising(s.calls[c]);
    }
    forall d | d in s'.calls ensures !Initialising(s'.calls[d]) {
      if d != c { assert s'.calls[d] == s.calls[d]; }
    }
  }

  /** A step of `c` leaves every other call consistent with the globals. */
  lemma OtherCallOk(s: State, s': State, c: CallId, d: CallId)
    requires Inv(s) && StepOf(s, s', c) && d in s.calls && d != c
    ensures d in s'.calls && CallOk(s', d)
  {
    assert CallOk(s, d);
    HolderUnique(s, c, d);
    if Decided(s) {
      DecisionStable(s, s', c);
    }
    if c in s.calls {
      if Advance(s, s', c) {
        OtherAfterAdvance(s, s', c, d);
      } else {
        assert CallOk(s, c);
      }
    }
  }

  lemma OtherAfterAdvance(s: State, s': State, c: CallId, d: CallId)
    requires Inv(s) && c in s.calls && Advance(s, s', c) && d in s.calls && d != c
    requires c in s.calls ==> !(Holding(s.calls[c]) && Holding(s.calls[d]))
    requires Decided(s) ==> Decided(s') && Choice(s') == Choice(s)
    ensures d in s'.calls && CallOk(s', d)
  {
    assert CallOk(s, d) && CallOk(s, c);
    assert s'.calls[d] == s.calls[d];
  }

  lemma OwnCallOk(s: State, s': State, c: CallId)
    requires Inv(s) && StepOf(s, s', c)
    ensures c in s'.calls && CallOk(s', c)
  {
    if c in s.calls {
      assert CallOk(s, c);
      if Decided(s) {
        DecisionStable(s, s', c);
      }
      if Advance(s, s', c) {
        OwnAfterAdvance(s, s', c);
      }
    }
  }

  lemma OwnAfterAdvance(s: State, s': State, c: CallId)
    requires Inv(s) && c in s.calls && Advance(s, s', c)
    requires Decided(s) ==> Decided(s') && Choice(s') == Choice(s)
    ensures c in s'.calls && CallOk(s', c)
  {
    assert CallOk(s, c);
    if s.calls[c].Assigning? {
      SettlesHere(s, s', c);
    } else if s.calls[c].Checking? {
      NoneElse(s, c);
    }
  }

  /** What is stored as the graph is persistent, settled, and backed by an open saver. */
  lemma ExecutorStep(s: State, s': State, c: CallId)
    requires Inv(s) && StepOf(s, s', c)
    ensures s'.executor.Some? ==> Decided(s') && s'.executor.value.Persistent? && s'.saverOpen
  {
    if c in s.calls {
      assert CallOk(s, c);
    }
    if s.executor.Some? {
      DecisionStable(s, s', c);
    } else if s'.executor.Some? {
      SettlesHere(s, s', c);
    }
  }

  lemma CountersStep(s: State, s': State, c: CallId)
    requires Inv(s) && StepOf(s, s', c)
    ensures (s'.lock.Some? ==> s'.lock.value in s'.calls) && (!s'.tried ==> s'.inits == 0) && s'.inits <= 1
  {
    if c in s.calls {
      assert CallOk(s, c);
    }
  }

  lemma CallsStep(s: State, s': State, c: CallId, d: CallId)
    requires Inv(s) && StepOf(s, s', c) && d in s'.calls
    ensures CallOk(s', d)
  {
    if d == c {
      OwnCallOk(s, s', c);
    } else {
      OtherCallOk(s, s', c, d);
    }
  }

  lemma InvStep(s: State, s': State, c: CallId)
    requires Inv(s) && StepOf(s, s', c)
    ensures Inv(s')
  {
    forall d | d in s'.calls ensures CallOk(s', d) {
      CallsStep(s, s', c, d);
    }
    CountersStep(s, s', c);
    ExecutorStep(s, s', c);
  }

  lemma HolderUnique(s: State, c: CallId, d: CallId)
    requires Inv(s) && d in s.calls && c != d
    ensures c in s.calls ==> !(Holding(s.calls[c]) && Holding(s.calls[d]))
  {
    assert CallOk(s, d);
    if c in s.calls { assert CallOk(s, c); }
  }

  /** While one call holds the lock no other call is initialising. */
  lemma NoneElse(s: State, c: CallId)
    requires Inv(s) && c in s.calls && Holding(s.calls[c])
    ensures forall d :: d in s.calls && d != c ==> !Initialising(s.calls[d])
  {
    forall d | d in s.calls && d != c ensures !Initialising(s.calls[d]) {
      HolderUnique(s, c, d);
    }
  }

  /** Storing the result of the initialiser settles the choice. */
  lemma SettlesHere(s: State, s': State, c: CallId)
    requires Inv(s) && c in s.calls && StepOf(s, s', c) && s.calls[c].Assigning? && s'.calls[c].Releasing?
    ensures Decided(s')
  {
    assert CallOk(s, c);
    NoneElse(s, c);
    forall d | d in s'.calls ensures !Initialising(s'.calls[d]) {
      if d != c { assert s'.calls[d] == s.calls[d]; }
    }
  }

  lemma RunStep(run: seq<State>, i: nat) returns (c: CallId)
    requires IsRun(run) && 0 < i < |run|
    ensures StepOf(run[i - 1], run[i], c)
  {
    var k := i - 1;
    assert Next(run[k], run[k + 1]);
    c :| StepOf(run[k], run[k + 1], c);
  }

  lemma {:induction false} InvAlongRun(run: seq<State>, i: nat)
    requires IsRun(run) && i < |run|
    ensures Inv(run[i])
  {
    if i > 0 {
      InvAlongRun(run, i - 1);
      var c := RunStep(run, i);
      InvStep(run[i - 1], run[i], c);
    }
  }

  lemma {:induction false} ChoiceAlongRun(run: seq<State>, i: nat, j: nat)
    requires IsRun(run) && i <= j < |run| && Decided(run[i])
    ensures Decided(run[j]) && Choice(run[j]) == Choice(run[i])
    decreases j
  {
    if i < j {
      ChoiceAlongRun(run, i, j - 1);
      InvAlongRun(run, j - 1);
      var c := RunStep(run, j);
      DecisionStable(run[j - 1], run[j], c);
    }
  }

  // ---------------------------------------------------------------- what every run guarantees

  /** The initialiser is started at most once, whatever fails and whoever is cancelled. */
  lemma InitAtMostOnce(run: seq<State>, i: nat)
    requires IsRun(run) && i < |run|
    ensures run[i].inits <= 1
  {
    InvAlongRun(run, i);
  }

  /** No call returns None, and a persistent result is only returned over an open saver. */
  lemma NeverNone(run: seq<State>, i: nat, c: CallId)
    requires IsRun(run) && i < |run| && c in run[i].calls && run[i].calls[c].Done?
    ensures run[i].calls[c].result.Some?
    ensures run[i].calls[c].result.value.Persistent? ==> run[i].saverOpen && run[i].inits == 1
  {
    InvAlongRun(run, i);
    assert CallOk(run[i], c);
    if run[i].calls[c].result.value.Persistent? {
      PersistentNeedsInit(run, i);
    }
  }

  lemma {:induction false} PersistentNeedsInit(run: seq<State>, i: nat)
    requires IsRun(run) && i < |run|
    ensures run[i].executor.Some? ==> run[i].inits == 1
    ensures forall c :: c in run[i].calls && Initialising(run[i].calls[c]) && !run[i].calls[c].Starting? ==>
      run[i].inits == 1
  {
    if i > 0 {
      PersistentNeedsInit(run, i - 1);
      InvAlongRun(run, i - 1);
      InvAlongRun(run, i);
      var s, s' := run[i - 1], run[i];
      var c := RunStep(run, i);
      if c in s.calls { assert CallOk(s, c); }
      forall d | d in s'.calls && Initialising(s'.calls[d]) && !s'.calls[d].Starting? ensures s'.inits == 1 {
        assert CallOk(s', d);
      }
    }
  }

  /** All calls of a run that return, at whatever time, return the same graph. */
  lemma Agreement(run: seq<State>, i: nat, j: nat, c: CallId, d: CallId)
    requires IsRun(run) && i < |run| && j < |run|
    requires c in run[i].calls && run[i].calls[c].Done?
    requires d in run[j].calls && run[j].calls[d].Done?
    ensures run[i].calls[c].result == run[j].calls[d].result
  {
    InvAlongRun(run, i);
    InvAlongRun(run, j);
    assert CallOk(run[i], c) && CallOk(run[j], d);
    if i <= j {
      ChoiceAlongRun(run, i, j);
    } else {
      ChoiceAlongRun(run, j, i);
    }
  }

  // ---------------------------------------------------------------- where a returned graph comes from

  /** At state `i` of the run, `c` takes the initialiser's answer `built` out of the call that made it. */
  ghost predicate Stores(run: seq<State>, i: nat, c: CallId, built: Option<Graph>) {
    && i + 1 < |run| && c in run[i].calls && c in run[i + 1].calls
    && run[i].calls[c] == Assigning(built) && run[i + 1].calls[c].Releasing?
  }

  /** At state `i` of the run, `c` is cancelled, or raises, inside the initialiser. */
  ghost predicate Breaks(run: seq<State>, i: nat, c: CallId) {
    && i + 1 < |run| && c in run[i].calls && c in run[i + 1].calls
    && Initialising(run[i].calls[c]) && run[i + 1].calls[c].Aborted?
  }

  lemma OthersStay(s: State, s': State, c: CallId)
    requires StepOf(s, s', c)
    ensures forall d :: d in s.calls && d != c ==> d in s'.calls && s'.calls[d] == s.calls[d]
  {
  }

  /** The statement that takes the initialiser's answer, which is the one the globals then hold. */
  lemma StoreStep(run: seq<State>, i: nat, c: CallId, built: Option<Graph>)
    requires IsRun(run) && Stores(run, i, c, built)
    ensures Inv(run[i]) && Decided(run[i + 1]) && run[i + 1].executor == built
  {
    InvAlongRun(run, i);
    var d := RunStep(run, i + 1);
    OthersStay(run[i], run[i + 1], d);
    SettlesHere(run[i], run[i + 1], c);
  }

  lemma NotYetDecided(run: seq<State>, i: nat, c: CallId, j: nat)
    requires IsRun(run) && j <= i < |run| && c in run[i].calls && Initialising(run[i].calls[c])
    ensures !Decided(run[j])
  {
    if Decided(run[j]) {
      ChoiceAlongRun(run, j, i);
      assert false;
    }
  }

  /** A graph the initialiser built is what every call of the run returns, whenever it returns. */
  lemma StoredIsReturned(run: seq<State>, i: nat, c: CallId, g: Graph, j: nat, d: CallId)
    requires IsRun(run) && Stores(run, i, c, Some(g)) && j < |run|
    requires d in run[j].calls && run[j].calls[d].Done?
    ensures run[j].calls[d].result == Some(g)
  {
    StoreStep(run, i, c, Some(g));
    InvAlongRun(run, j);
    assert CallOk(run[j], d);
    if j <= i {
      NotYetDecided(run, i, c, j);
    }
    ChoiceAlongRun(run, i + 1, j);
  }

  /** What ended the one initialisation, given the graph the globals hold after it. */
  ghost predicate CauseAt(run: seq<State>, i: nat, c: CallId, executor: Option<Graph>) {
    Stores(run, i, c, executor) || (executor.None? && Breaks(run, i, c))
  }

  lemma DecidingStep(run: seq<State>, i: nat) returns (c: CallId)
    requires IsRun(run) && i + 1 < |run| && !Decided(run[i]) && Decided(run[i + 1])
    ensures CauseAt(run, i, c, run[i + 1].executor)
  {
    var s, s' := run[i], run[i + 1];
    InvAlongRun(run, i);
    c := RunStep(run, i + 1);
    forall d | d in s.calls && d != c ensures !Initialising(s.calls[d]) {
      assert s'.calls[d] == s.calls[d];
    }
    if c in s.calls {
      assert CallOk(s, c);
      assert !Initialising(s'.calls[c]);
    }
  }

  lemma {:induction false} DecidedHasCause(run: seq<State>, j: nat)
    requires IsRun(run) && j < |run| && Decided(run[j])
    ensures exists i: nat, c: CallId :: i < j && CauseAt(run, i, c, run[j].executor)
  {
    if j > 0 {
      var k := j - 1;
      if Decided(run[k]) {
        DecidedHasCause(run, k);
        ChoiceAlongRun(run, k, j);
        InvAlongRun(run, k);
        InvAlongRun(run, j);
      } else {
        var c := DecidingStep(run, k);
      }
    }
  }

  /**
   * A call returns the graph over process memory only after the initialiser gave none or was cut short, and another
   * graph only after the initialiser built that one.
   */
  lemma ResultHasCause(run: seq<State>, j: nat, d: CallId)
    requires IsRun(run) && j < |run| && d in run[j].calls && run[j].calls[d].Done?
    ensures run[j].calls[d].result == Some(InMemory) ==>
      exists i: nat, c: CallId :: i < j && (Stores(run, i, c, None) || Breaks(run, i, c))
    ensures run[j].calls[d].result != Some(InMemory) ==>
      exists i: nat, c: CallId :: i < j && Stores(run, i, c, run[j].calls[d].result)
  {
    InvAlongRun(run, j);
    assert CallOk(run[j], d);
    DecidedHasCause(run, j);
  }

  /** The places of a call that takes the way without the lock, and what it returns. */
  predicate OnFastPath(pc: Pc, executor: Option<Graph>) {
    pc.Enter? || pc.FastReturn? || pc.Aborted? || pc == Done(executor)
  }

  lemma FastStep(s: State, s': State, d: CallId, c: CallId)
    requires Inv(s) && StepOf(s, s', d) && s.executor.Some? && c in s.calls && OnFastPath(s.calls[c], s.executor)
    ensures s'.executor == s.executor && c in s'.calls && OnFastPath(s'.calls[c], s.executor)
  {
    OthersStay(s, s', d);
    if d in s.calls {
      assert CallOk(s, d);
    }
  }

  /** A call that starts once a graph is stored never waits for the lock and returns that graph. */
  lemma {:induction false} FastPath(run: seq<State>, i: nat, j: nat, c: CallId)
    requires IsRun(run) && i <= j < |run|
    requires run[i].executor.Some? && c in run[i].calls && run[i].calls[c].Enter?
    ensures run[j].executor == run[i].executor
    ensures c in run[j].calls
    ensures var pc := run[j].calls[c]; pc.Enter? || pc.FastReturn? || pc.Aborted? || pc == Done(run[i].executor)
    decreases j
  {
    if i < j {
      FastPath(run, i, j - 1, c);
      InvAlongRun(run, j - 1);
      var d := RunStep(run, j);
      FastStep(run[j - 1], run[j], d, c);
    }
  }

  /** The states of one call that meets no failure. */
  function Smooth(g: Graph): seq<State> {
    var t := State(None, true, false, Some(0), map[0 := Starting], 0);
    var u := t.(inits := 1);
    var v := u.(saverOpen := true);
    var w := v.(executor := Some(g));
    [ START, START.(calls := map[0 := Enter]), START.(calls := map[0 := Waiting]),
      START.(lock := Some(0), calls := map[0 := Checking]), t,
      u.(calls := map[0 := OpeningSaver]), u.(calls := map[0 := SettingUp]), v.(calls := map[0 := Compiling]),
      v.(calls := map[0 := Assigning(Some(g))]), w.(calls := map[0 := Releasing]),
      w.(lock := None, calls := map[0 := Returning]), w.(lock := None, calls := map[0 := Done(Some(g))]) ]
  }

  /** The persistent graph is reached: a call that meets no failure returns it. */
  lemma PersistentReached(n: nat)
    ensures var run := Smooth(Persistent(n));
      IsRun(run) && run[|run| - 1].calls == map[0 := Done(Some(Persistent(n)))]
  {
    var run := Smooth(Persistent(n));
    forall i | 0 <= i < |run| - 1 ensures Next(run[i], run[i + 1]) {
      SmoothStep(Persistent(n), i);
    }
  }

  lemma SmoothStep(g: Graph, i: nat)
    requires g.Persistent? && i < 11
    ensures StepOf(Smooth(g)[i], Smooth(g)[i + 1], 0)
  {
    if i < 4 {
      BeforeInit(g, i);
    } else if i < 8 {
      DuringInit(g, i);
    } else {
      AfterInit(g, i);
    }
  }

  lemma BeforeInit(g: Graph, i: nat)
    requires i < 4
    ensures StepOf(Smooth(g)[i], Smooth(g)[i + 1], 0)
  {
  }

  lemma DuringInit(g: Graph, i: nat)
    requires g.Persistent? && 4 <= i < 8
    ensures StepOf(Smooth(g)[i], Smooth(g)[i + 1], 0)
  {
    assert i == 7 ==> Smooth(g)[8] == Goto(Smooth(g)[7], 0, Assigning(Some(Persistent(g.saver))));
  }

  lemma AfterInit(g: Graph, i: nat)
    requires 8 <= i < 11
    ensures StepOf(Smooth(g)[i], Smooth(g)[i + 1], 0)
  {
  }

  /** What follows once the initialiser has given None. */
  function GivesUp(s: State): seq<State> {
    var t := s.(lock := None);
    [ s.(calls := map[0 := Assigning(None)]), s.(calls := map[0 := Releasing]),
      t.(calls := map[0 := Returning]), t.(calls := map[0 := Done(Some(InMemory))]) ]
  }

  /** The same call when statement `k` of the initialiser fails: import, opening, set-up, compilation. */
  function Failing(g: Graph, k: nat): seq<State>
    requires k < 4
  {
    Smooth(g)[..5 + k] + GivesUp(Smooth(g)[4 + k].(inits := 1))
  }

  /** Whichever statement of the initialiser fails, the call returns the graph over process memory. */
  lemma FallbackReached(n: nat, k: nat)
    requires k < 4
    ensures var run := Failing(Persistent(n), k);
      IsRun(run) && run[|run| - 1].calls == map[0 := Done(Some(InMemory))]
  {
    var g := Persistent(n);
    var run, before, after := Failing(g, k), Smooth(g), GivesUp(Smooth(g)[4 + k].(inits := 1));
    forall i | 0 <= i < |run| - 1 ensures Next(run[i], run[i + 1]) {
      if i < 4 + k {
        SmoothStep(g, i);
        assert run[i] == before[i] && run[i + 1] == before[i + 1];
      } else if i == 4 + k {
        FailsAt(g, k);
        assert run[i] == before[i] && run[i + 1] == after[0];
      } else {
        GivesUpStep(before[4 + k].(inits := 1), i - 5 - k);
        assert run[i] == after[i - 5 - k] && run[i + 1] == after[i - 4 - k];
      }
    }
  }

  lemma FailsAt(g: Graph, k: nat)
    requires k < 4
    ensures StepOf(Smooth(g)[4 + k], GivesUp(Smooth(g)[4 + k].(inits := 1))[0], 0)
  {
  }

  lemma GivesUpStep(s: State, i: nat)
    requires s.executor.None? && i < 3
    ensures StepOf(GivesUp(s)[i], GivesUp(s)[i + 1], 0)
  {
  }

  // ---------------------------------------------------------------- progress

  function Rank(pc: Pc): nat {
    match pc
    case Enter => 10
    case FastReturn => 1
    case Waiting => 9
    case Checking => 8
    case Starting => 7
    case OpeningSaver => 6
    case SettingUp => 5
    case Compiling => 4
    case Assigning(_) => 3
    case Releasing => 2
    case Returning => 1
    case Done(_) => 0
    case Aborted => 0
  }

  /** Every step of a call brings that call closer to its end and moves no other call. */
  lemma StepDescends(s: State, s': State, c: CallId)
    requires c in s.calls && StepOf(s, s', c)
    ensures s'.calls.Keys == s.calls.Keys && Rank(s'.calls[c]) < Rank(s.calls[c])
    ensures forall d :: d in s.calls && d != c ==> s'.calls[d] == s.calls[d]
  {
    if Advance(s, s', c) {
      AdvanceDescends(s, s', c);
    }
  }

  lemma AdvanceDescends(s: State, s': State, c: CallId)
    requires c in s.calls && Advance(s, s', c)
    ensures c in s'.calls && s'.calls == s.calls[c := s'.calls[c]] && Rank(s'.calls[c]) < Rank(s.calls[c])
  {
    match s.calls[c]
    case Enter =>
    case FastReturn =>
    case Waiting =>
    case Checking =>
    case Starting =>
    case OpeningSaver =>
    case SettingUp =>
    case Compiling =>
    case Assigning(_) =>
    case Releasing =>
    case Returning =>
    case Done(_) =>
    case Aborted =>
  }

  /** No deadlock: while some call is unfinished, some call can take its next statement. */
  lemma SomeoneCanAdvance(s: State, c: CallId) returns (d: CallId, s': State)
    requires Inv(s) && c in s.calls && !Finished(s.calls[c])
    ensures d in s.calls && Advance(s, s', d)
  {
    d := if s.calls[c].Waiting? && s.lock.Some? then s.lock.value else c;
    assert CallOk(s, d);
    var pc := s.calls[d];
    s' := match pc
      case Enter => Goto(s, d, if s.executor.Some? then FastReturn else Waiting)
      case FastReturn => Goto(s, d, Done(s.executor))
      case Waiting => Goto(s.(lock := Some(d)), d, Checking)
      case Checking =>
        if s.executor.None? && !s.tried then Goto(s.(tried := true), d, Starting) else Goto(s, d, Releasing)
      case Starting => Goto(s.(inits := s.inits + 1), d, OpeningSaver)
      case OpeningSaver => Goto(s, d, SettingUp)
      case SettingUp => Goto(s.(saverOpen := true), d, Compiling)
      case Compiling => Goto(s, d, Assigning(None))
      case Assigning(built) => Goto(s.(executor := built), d, Releasing)
      case Releasing => Goto(s.(lock := None), d, Returning)
      case _ => Goto(s, d, Done(Or(s.executor, Some(InMemory))));
  }

  /** What the calls listed in `ids` still have to do. */
  function RankSum(ids: seq<CallId>, calls: map<CallId, Pc>): nat
    requires forall k :: 0 <= k < |ids| ==> ids[k] in calls
  {
    if ids == [] then 0 else RankSum(ids[..|ids| - 1], calls) + Rank(calls[ids[|ids| - 1]])
  }

  lemma {:induction false} RankSumDrops(ids: seq<CallId>, calls: map<CallId, Pc>, after: map<CallId, Pc>, c: CallId)
    requires forall k :: 0 <= k < |ids| ==> ids[k] in calls && ids[k] in after
    requires forall d :: d in calls && d != c ==> d in after && after[d] == calls[d]
    requires c in calls && c in after && Rank(after[c]) < Rank(calls[c])
    ensures RankSum(ids, after) <= RankSum(ids, calls)
    ensures c in ids ==> RankSum(ids, after) < RankSum(ids, calls)
  {
    if ids != [] {
      var n := |ids| - 1;
      RankSumDrops(ids[..n], calls, after, c);
      assert ids == ids[..n] + [ids[n]];
    }
  }

  lemma {:induction false} RankSumSame(ids: seq<CallId>, calls: map<CallId, Pc>, after: map<CallId, Pc>)
    requires forall k :: 0 <= k < |ids| ==> ids[k] in calls && ids[k] in after && after[ids[k]] == calls[ids[k]]
    ensures RankSum(ids, after) == RankSum(ids, calls)
  {
    if ids != [] {
      RankSumSame(ids[..|ids| - 1], calls, after);
    }
  }

  /** `ids` lists the calls in the order of their start, and every state so far is paid for by a step of one of them. */
  ghost predicate Accounted(ids: seq<CallId>, calls: map<CallId, Pc>, states: nat) {
    && |ids| == |calls| && (forall c :: c in calls <==> c in ids)
    && states + RankSum(ids, calls) <= 1 + 11 * |ids|
  }

  lemma StartAccounted(ids: seq<CallId>, s: State, s': State, c: CallId, states: nat)
    requires Accounted(ids, s.calls, states) && c !in s.calls && StepOf(s, s', c)
    ensures Accounted(ids + [c], s'.calls, states + 1)
  {
    var all := ids + [c];
    assert all[..|ids|] == ids;
    assert s'.calls.Keys == s.calls.Keys + {c};
    assert |s'.calls| == |s'.calls.Keys| && |s.calls| == |s.calls.Keys|;
    RankSumSame(ids, s.calls, s'.calls);
  }

  lemma StepAccounted(ids: seq<CallId>, s: State, s': State, c: CallId, states: nat)
    requires Accounted(ids, s.calls, states) && c in s.calls && StepOf(s, s', c)
    ensures Accounted(ids, s'.calls, states + 1)
  {
    StepDescends(s, s', c);
    assert |s'.calls| == |s'.calls.Keys| && |s.calls| == |s.calls.Keys|;
    RankSumDrops(ids, s.calls, s'.calls, c);
  }

  lemma {:induction false} RunAccounted(run: seq<State>, i: nat, states: nat)
    requires IsRun(run) && i < |run| && states == i + 1
    ensures exists ids :: Accounted(ids, run[i].calls, states)
  {
    if i == 0 {
      assert Accounted([], run[0].calls, states);
    } else {
      RunAccounted(run, i - 1, states - 1);
      var before := states - 1;
      var ids :| Accounted(ids, run[i - 1].calls, before);
      var c := RunStep(run, i);
      if c in run[i - 1].calls {
        StepAccounted(ids, run[i - 1], run[i], c, before);
      } else {
        StartAccounted(ids, run[i - 1], run[i], c, before);
      }
    }
  }

  /**
   * A run with n calls has at most 11 n + 1 states, and one in which no call can take another statement has finished
   * them all: no call waits for ever.
   */
  lemma MaximalRunFinishes(run: seq<State>)
    requires IsRun(run)
    ensures |run| <= 11 * |run[|run| - 1].calls| + 1
    ensures var last := run[|run| - 1];
      (forall d, s' :: d in last.calls ==> !Advance(last, s', d)) ==>
      forall c :: c in last.calls ==> Finished(last.calls[c])
  {
    var last := run[|run| - 1];
    RunAccounted(run, |run| - 1, |run|);
    InvAlongRun(run, |run| - 1);
    if forall d, s' :: d in last.calls ==> !Advance(last, s', d) {
      forall c | c in last.calls ensures Finished(last.calls[c]) {
        if !Finished(last.calls[c]) {
          var d, s' := SomeoneCanAdvance(last, c);
          assert false;
        }
      }
    }
  }
}
