/** The live indexer (server/indexer_service.go): the header goroutine and the indexing loop
    share the head and a one-slot channel. Both are split into atomic steps that interleave
    freely, and a run is any sequence of such steps. */
module IndexerService {
  import opened Wrappers

  const MAX_INDEXER_BACKLOG := 500000

  datatype HeaderPc = Idle | Notifying

  datatype IndexerPc =
    | Starting                // about to read the persisted cursor
    | Choosing                // about to compare it with the head
    | Jumping                 // about to jump forward
    | Checking                // head of the outer loop
    | Waiting                 // in the select
    | Looping(i: int)         // head of the inner loop
    | Working(i: int)         // fetching and indexing height i

  datatype Outcome = FetchFailed | ResultsFailed | IndexFailed | Indexed

  datatype Attempt = Attempt(height: int, outcome: Outcome)

  datatype State = State(
    latest: int,              // latestBlock, shared
    token: bool,              // newBlockSignal holds a value
    header: HeaderPc,
    pc: IndexerPc,
    last: int,                // lastBlock
    cursor: int,              // what LastIndexedBlock returned
    compared: int,            // the head it was compared with
    jumpHead: Option<int>,    // the head a jump was measured from
    start: int,               // the height the loop began after
    attempts: seq<Attempt>,
    indexed: set<int>)        // heights IndexBlock stored

  function Init(status: int): (s: State) {
    State(status, false, Idle, Starting, -1, -1, status, None, -1, [], {})
  }

  datatype Action =
    | Header(height: int)     // a block header event arrives
    | Notify                  // the non-blocking send
    | ReadCursor(last: int)   // LastIndexedBlock returns
    | Choose
    | Jump
    | Check
    | Wake                    // receive from newBlockSignal
    | Timeout                 // NewBlockWaitTimeout elapses
    | Loop
    | Work(outcome: Outcome, resultHeight: int)

  function Step(s: State, a: Action): (r: Option<State>) {
    match a
    case Header(height) =>
      if s.header != Idle then None
      else if height > s.latest then Some(s.(latest := height, header := Notifying))
      else Some(s)
    case Notify =>
      if s.header != Notifying then None else Some(s.(token := true, header := Idle))
    case ReadCursor(last) =>
      if s.pc != Starting then None else Some(s.(last := last, cursor := last, pc := Choosing))
    case Choose =>
      if s.pc != Choosing then None
      else
        var s' := s.(compared := s.latest);
        if s.last == -1 then Some(s'.(last := s.latest, start := s.latest, pc := Checking))
        else if s.latest - s.last > MAX_INDEXER_BACKLOG then Some(s'.(pc := Jumping))
        else Some(s'.(start := s.last, pc := Checking))
    case Jump =>
      if s.pc != Jumping then None
      else
        var skipTo := s.latest - MAX_INDEXER_BACKLOG;
        Some(s.(last := skipTo, start := skipTo, jumpHead := Some(s.latest), pc := Checking))
    case Check =>
      if s.pc != Checking then None
      else if s.latest <= s.last then Some(s.(pc := Waiting))
      else Some(s.(pc := Looping(s.last + 1)))
    case Wake =>
      if s.pc != Waiting || !s.token then None else Some(s.(token := false, pc := Checking))
    case Timeout =>
      if s.pc != Waiting then None else Some(s.(pc := Checking))
    case Loop =>
      if !s.pc.Looping? then None
      else if s.pc.i <= s.latest then Some(s.(pc := Working(s.pc.i)))
      else Some(s.(pc := Checking))
    case Work(outcome, resultHeight) =>
      if !s.pc.Working? then None
      else
        var i := s.pc.i;
        var last := if outcome == FetchFailed || outcome == ResultsFailed then i else resultHeight;
        Some(s.(attempts := s.attempts + [Attempt(i, outcome)],
                indexed := s.indexed + if outcome == Indexed then {i} else {},
                last := last, pc := Looping(i + 1)))
  }

  function Exec(s: State, actions: seq<Action>): (r: Option<State>) {
    if actions == [] then Some(s)
    else
      match Exec(s, actions[..|actions| - 1])
      case None => None
      case Some(s') => Step(s', actions[|actions| - 1])
  }

  // ------------------------------------------------------------------
  // No lost wake-up
  // ------------------------------------------------------------------

  /** While the indexer waits behind the head, a token is in the channel or about to be put there. */
  predicate WakePending(s: State) {
    s.pc == Waiting && s.latest > s.last ==> s.token || s.header == Notifying
  }

  lemma {:induction false} WakePendingAlways(status: int, actions: seq<Action>)
    requires Exec(Init(status), actions).Some?
    ensures WakePending(Exec(Init(status), actions).value)
  {
    if actions == [] {
    } else {
      WakePendingAlways(status, actions[..|actions| - 1]);
    }
  }

  /** In every reachable state: whenever the indexer waits, the head is beyond its cursor and
      the header goroutine is between events, the channel holds a token. */
  lemma {:induction false} NoLostWakeUp(status: int, actions: seq<Action>)
    requires Exec(Init(status), actions).Some?
    ensures var s := Exec(Init(status), actions).value;
            s.pc == Waiting && s.latest > s.last && s.header == Idle ==> s.token
  {
    WakePendingAlways(status, actions);
  }

  /** So new work is taken up without the timeout: the pending send, if any, then the receive
      and the check lead into the loop at the next height. */
  lemma {:induction false} WorkResumes(status: int, actions: seq<Action>)
    requires Exec(Init(status), actions).Some?
    ensures var s := Exec(Init(status), actions).value;
            s.pc == Waiting && s.latest > s.last ==>
              var ready := if s.header == Notifying then Step(s, Notify) else Some(s);
              && ready.Some? && Step(ready.value, Wake).Some?
              && Step(Step(ready.value, Wake).value, Check)
                 == Some(ready.value.(token := false, pc := Looping(s.last + 1)))
              && s.last + 1 <= ready.value.latest
  {
    WakePendingAlways(status, actions);
  }

  // ------------------------------------------------------------------
  // Cursor safety
  // ------------------------------------------------------------------

  /** When the results of height i arrive, they carry height i. */
  predicate Honest(s: State, a: Action) {
    a.Work? && s.pc.Working? && (a.outcome == IndexFailed || a.outcome == Indexed) ==>
      a.resultHeight == s.pc.i
  }

  ghost predicate HonestRun(s: State, actions: seq<Action>)
    requires Exec(s, actions).Some?
  {
    actions == [] ||
    var before := actions[..|actions| - 1];
    HonestRun(s, before) && Honest(Exec(s, before).value, actions[|actions| - 1])
  }

  predicate Started(s: State) {
    !(s.pc.Starting? || s.pc.Choosing? || s.pc.Jumping?)
  }

  /** The attempts so far are exactly the heights from start + 1 to the cursor, in order, and
      the heights stored are those whose attempt succeeded. */
  ghost predicate Consecutive(s: State) {
    && |s.attempts| == s.last - s.start
    && (forall k :: 0 <= k < |s.attempts| ==> s.attempts[k].height == s.start + 1 + k)
    && (forall h :: h in s.indexed <==>
          s.start < h <= s.last && s.attempts[h - s.start - 1].outcome == Indexed)
  }

  ghost predicate CursorInvariant(s: State, status: int) {
    && s.latest >= status
    && (!Started(s) ==> s.attempts == [] && s.indexed == {})
    && (Started(s) ==> Consecutive(s) && s.start >= status - MAX_INDEXER_BACKLOG)
    && (s.pc.Looping? || s.pc.Working? ==> s.pc.i == s.last + 1)
    && (s.pc.Working? ==> s.pc.i <= s.latest)
  }

  lemma NothingAttempted(s: State)
    requires s.attempts == [] && s.indexed == {} && s.last == s.start
    ensures Consecutive(s)
  {
  }

  lemma SameAttempts(s: State, s': State)
    requires Consecutive(s)
    requires (s'.attempts, s'.indexed, s'.last, s'.start) == (s.attempts, s.indexed, s.last, s.start)
    ensures Consecutive(s')
  {
  }

  lemma OneMoreAttempt(s: State, s': State, i: int, outcome: Outcome)
    requires Consecutive(s) && i == s.last + 1 && s'.start == s.start && s'.last == i
    requires s'.attempts == s.attempts + [Attempt(i, outcome)]
    requires s'.indexed == s.indexed + if outcome == Indexed then {i} else {}
    ensures Consecutive(s')
  {
  }

  lemma StepKeepsCursor(s: State, a: Action, status: int)
    requires CursorInvariant(s, status) && Honest(s, a) && Step(s, a).Some?
    ensures CursorInvariant(Step(s, a).value, status)
  {
    hide Consecutive;
    var s' := Step(s, a).value;
    if Started(s') {
      if !Started(s) {
        NothingAttempted(s');
      } else if a.Work? {
        OneMoreAttempt(s, s', s.pc.i, a.outcome);
      } else {
        SameAttempts(s, s');
      }
    }
  }

  lemma {:induction false} CursorAlways(status: int, actions: seq<Action>)
    requires Exec(Init(status), actions).Some? && HonestRun(Init(status), actions)
    ensures CursorInvariant(Exec(Init(status), actions).value, status)
  {
    hide CursorInvariant, Step;
    if actions == [] {
      InitialCursor(status);
    } else {
      var before := actions[..|actions| - 1];
      CursorAlways(status, before);
      StepKeepsCursor(Exec(Init(status), before).value, actions[|actions| - 1], status);
    }
  }

  lemma InitialCursor(status: int)
    ensures CursorInvariant(Init(status), status)
  {
  }

  ghost predicate AttemptedOnce(attempts: seq<Attempt>, h: int) {
    exists k :: 0 <= k < |attempts| && attempts[k].height == h && OnlyAt(attempts, h, k)
  }

  predicate OnlyAt(attempts: seq<Attempt>, h: int, k: nat) {
    forall k' :: 0 <= k' < |attempts| && attempts[k'].height == h ==> k' == k
  }

  ghost predicate AttemptFailed(attempts: seq<Attempt>, h: int) {
    exists k :: 0 <= k < |attempts| && attempts[k].height == h && attempts[k].outcome != Indexed
  }

  /** In every run the heights attempted increase strictly and are those from start + 1 to the
      cursor, each once; the heights stored are those whose attempt did not end in an error; and
      the run starts at most 500000 below the head seen at start-up. */
  lemma LiveCursorSafety(status: int, actions: seq<Action>)
    requires Exec(Init(status), actions).Some? && HonestRun(Init(status), actions)
    ensures var s := Exec(Init(status), actions).value;
            Started(s) ==>
              && s.start >= status - MAX_INDEXER_BACKLOG
              && (forall h :: AttemptedOnce(s.attempts, h) <==> s.start < h <= s.last)
              && (forall k, k' :: 0 <= k < k' < |s.attempts| ==> s.attempts[k].height < s.attempts[k'].height)
              && (forall h :: h in s.indexed <==> s.start < h <= s.last && !AttemptFailed(s.attempts, h))
  {
    hide Exec;
    CursorAlways(status, actions);
    var s := Exec(Init(status), actions).value;
    if Started(s) {
      forall h ensures AttemptedOnce(s.attempts, h) <==> s.start < h <= s.last {
        if s.start < h <= s.last {
          AttemptAt(s, h);
        }
      }
      forall h ensures h in s.indexed <==> s.start < h <= s.last && !AttemptFailed(s.attempts, h) {
        if s.start < h <= s.last {
          AttemptAt(s, h);
        }
      }
    }
  }

  lemma AttemptAt(s: State, h: int)
    requires Consecutive(s) && s.start < h <= s.last
    ensures AttemptedOnce(s.attempts, h) && (h !in s.indexed <==> AttemptFailed(s.attempts, h))
  {
    var k := h - s.start - 1;
    assert s.attempts[k].height == h;
    assert OnlyAt(s.attempts, h, k);
  }

  // ------------------------------------------------------------------
  // The head
  // ------------------------------------------------------------------

  /** The height is the head at start-up or was announced. */
  predicate Known(status: int, actions: seq<Action>, h: int) {
    h == status || Header(h) in actions
  }

  /** In every run the head is the greatest of the head at start-up and the heights announced. */
  lemma {:induction false} HeadExact(status: int, actions: seq<Action>)
    requires Exec(Init(status), actions).Some?
    ensures var s := Exec(Init(status), actions).value;
            Known(status, actions, s.latest) && forall h :: Known(status, actions, h) ==> h <= s.latest
  {
    hide Step;
    if actions == [] {
    } else {
      var last := |actions| - 1;
      var before, a := actions[..last], actions[last];
      HeadExact(status, before);
      StepHead(Exec(Init(status), before).value, a);
      assert actions == before + [a];
      forall h ensures Known(status, actions, h) <==> Known(status, before, h) || a == Header(h) {
      }
    }
  }

  lemma StepHead(s: State, a: Action)
    requires Step(s, a).Some?
    ensures Step(s, a).value.latest == if a.Header? && a.height > s.latest then a.height else s.latest
  {
  }

  ghost predicate BelowHead(s: State) {
    && (s.pc.Working? ==> s.pc.i <= s.latest)
    && forall k :: 0 <= k < |s.attempts| ==> s.attempts[k].height <= s.latest
  }

  /** So no run, honest or not, attempts a height above every height it knows of. */
  lemma {:induction false} AttemptsKnown(status: int, actions: seq<Action>)
    requires Exec(Init(status), actions).Some?
    ensures BelowHead(Exec(Init(status), actions).value)
  {
    if actions == [] {
    } else {
      AttemptsKnown(status, actions[..|actions| - 1]);
    }
  }

  // ------------------------------------------------------------------
  // Wake-ups are not invented
  // ------------------------------------------------------------------

  /** How often the head was raised in a run. */
  function Raises(status: int, actions: seq<Action>): (n: nat)
    requires Exec(Init(status), actions).Some?
  {
    if actions == [] then 0
    else
      var last := |actions| - 1;
      var a, head := actions[last], Exec(Init(status), actions[..last]).value.latest;
      Raises(status, actions[..last]) + if a.Header? && a.height > head then 1 else 0
  }

  function Wakes(actions: seq<Action>): (n: nat) {
    if actions == [] then 0
    else Wakes(actions[..|actions| - 1]) + if actions[|actions| - 1].Wake? then 1 else 0
  }

  /** The indexer is woken at most once for every time the head was raised, the signals still on
      their way included. */
  lemma {:induction false} WakesBounded(status: int, actions: seq<Action>)
    requires Exec(Init(status), actions).Some?
    ensures var s := Exec(Init(status), actions).value;
            Wakes(actions) + (if s.token then 1 else 0) + (if s.header == Notifying then 1 else 0)
            <= Raises(status, actions)
  {
    if actions == [] {
    } else {
      WakesBounded(status, actions[..|actions| - 1]);
    }
  }

  // ------------------------------------------------------------------
  // Catching up
  // ------------------------------------------------------------------

  lemma {:induction false} ExecFront(s: State, a: Action, more: seq<Action>)
    requires Step(s, a).Some?
    ensures Exec(s, [a] + more) == Exec(Step(s, a).value, more)
  {
    hide Step;
    var actions := [a] + more;
    if more == [] {
      assert actions[..0] == [];
      assert Exec(s, []) == Some(s);
    } else {
      ExecFront(s, a, more[..|more| - 1]);
      assert actions[..|actions| - 1] == [a] + more[..|more| - 1];
    }
  }

  /** Steps of the indexing loop alone. */
  predicate LoopOnly(actions: seq<Action>) {
    forall k :: 0 <= k < |actions| ==> actions[k].Check? || actions[k].Loop? || actions[k].Work?
  }

  /** The loop attempts every height up to the head and then waits there: from any state of an
      honest run in which it is not waiting, its own steps lead there, with the last result for
      each height as given. */
  lemma {:induction false} CatchesUp(s: State, status: int, outcome: Outcome) returns (actions: seq<Action>)
    requires CursorInvariant(s, status) && Started(s) && s.pc != Waiting
    ensures LoopOnly(actions) && Exec(s, actions).Some?
    ensures var s' := Exec(s, actions).value;
            && s'.pc == Waiting && s'.latest == s.latest && s'.start == s.start
            && s'.last == (if s.last < s.latest then s.latest else s.last)
            && |s'.attempts| == s'.last - s'.start
    decreases if s.latest > s.last then s.latest - s.last else 0,
              match s.pc case Working(_) => 0 case Looping(i) => (if i <= s.latest then 1 else 3) case _ => 2
  {
    hide CursorInvariant, Exec;
    var a := NextStep(s, outcome);
    NextStepRuns(s, status, outcome);
    var s1 := Step(s, a).value;
    StepKeepsCursor(s, a, status);
    if s1.pc == Waiting {
      actions := [a];
      ExecFront(s, a, []);
      NothingRun(s1);
      assert [a] + [] == [a];
      WaitingAt(s1, status);
    } else {
      var more := CatchesUp(s1, status, outcome);
      actions := [a] + more;
      ExecFront(s, a, more);
    }
  }

  function NextStep(s: State, outcome: Outcome): (a: Action) {
    match s.pc
    case Looping(_) => Loop
    case Working(i) => Work(outcome, i)
    case _ => Check
  }

  lemma NextStepRuns(s: State, status: int, outcome: Outcome)
    requires CursorInvariant(s, status) && Started(s) && s.pc != Waiting
    ensures var a := NextStep(s, outcome);
            && Step(s, a).Some? && Honest(s, a) && (a.Check? || a.Loop? || a.Work?)
            && var s1 := Step(s, a).value;
               && Started(s1) && s1.latest == s.latest && s1.start == s.start
               && (s1.pc == Waiting ==> s.latest <= s.last && s1.last == s.last)
               && (s.pc.Working? ==> s1.last == s.last + 1 <= s.latest && s1.pc.Looping?)
               && (!s.pc.Working? ==> s1.last == s.last)
               && (s.pc.Looping? ==> if s.last < s.latest then s1.pc.Working? else s1.pc == Checking)
               && (s.pc == Checking ==> if s.last < s.latest then s1.pc == Looping(s.last + 1) else s1.pc == Waiting)
  {
  }

  lemma WaitingAt(s: State, status: int)
    requires CursorInvariant(s, status) && Started(s)
    ensures |s.attempts| == s.last - s.start
  {
  }

  // ------------------------------------------------------------------
  // Where a run starts, and which gap it leaves
  // ------------------------------------------------------------------

  /** What start-up has decided so far. */
  predicate StartInvariant(s: State, status: int) {
    && status <= s.compared <= s.latest
    && (s.pc.Choosing? ==> s.last == s.cursor)
    && (s.pc.Jumping? ==> s.cursor != -1 && s.compared - s.cursor > MAX_INDEXER_BACKLOG)
    && (!Started(s) ==> s.jumpHead == None)
    && (Started(s) ==> StartDecided(s))
  }

  /** After start-up: an empty index starts at the head, a cursor at most 500000 behind is kept,
      any other is replaced by the head read at the jump less 500000. */
  predicate StartDecided(s: State) {
    if s.cursor == -1 then s.start == s.compared && s.jumpHead == None
    else if s.compared - s.cursor <= MAX_INDEXER_BACKLOG then s.start == s.cursor && s.jumpHead == None
    else s.jumpHead.Some? && s.compared <= s.jumpHead.value && s.start == s.jumpHead.value - MAX_INDEXER_BACKLOG
  }

  lemma {:induction false} StartAlways(status: int, actions: seq<Action>)
    requires Exec(Init(status), actions).Some?
    ensures StartInvariant(Exec(Init(status), actions).value, status)
  {
    hide StartInvariant, Step;
    if actions == [] {
      InitialStart(status);
    } else {
      var before := actions[..|actions| - 1];
      StartAlways(status, before);
      StepKeepsStart(Exec(Init(status), before).value, actions[|actions| - 1], status);
    }
  }

  lemma InitialStart(status: int)
    ensures StartInvariant(Init(status), status)
  {
  }

  lemma StepKeepsStart(s: State, a: Action, status: int)
    requires StartInvariant(s, status) && Step(s, a).Some?
    ensures StartInvariant(Step(s, a).value, status)
  {
  }

  /** In every run, honest or not, the persisted cursor is kept if and only if the head it was
      compared with is at most 500000 above it; otherwise the start lies beyond it. */
  lemma {:induction false} StartExact(status: int, actions: seq<Action>)
    requires Exec(Init(status), actions).Some?
    ensures var s := Exec(Init(status), actions).value;
            Started(s) ==>
              && StartDecided(s)
              && (s.cursor != -1 ==> (s.start == s.cursor <==> s.compared - s.cursor <= 500000))
              && (s.cursor != -1 ==> s.cursor <= s.start)
  {
    StartAlways(status, actions);
  }

  /** What a state remembers of an action taken when the head was `head`: heights announced are
      at most the head, the cursor is the one read, and the two heads kept are those at the
      comparison and at the jump. */
  predicate Remembers(s: State, a: Action, head: int) {
    && head <= s.latest && (a.Header? ==> a.height <= s.latest)
    && (a.ReadCursor? ==> !s.pc.Starting? && s.cursor == a.last)
    && (a.Choose? ==> !s.pc.Starting? && !s.pc.Choosing? && s.compared == head)
    && (a.Jump? ==> Started(s) && s.jumpHead == Some(head))
  }

  lemma StepRecords(s: State, a: Action)
    requires Step(s, a).Some?
    ensures Remembers(Step(s, a).value, a, s.latest)
  {
  }

  lemma StepKeepsRecord(s: State, a: Action, past: Action, head: int)
    requires Remembers(s, past, head) && Step(s, a).Some?
    ensures Remembers(Step(s, a).value, past, head)
  {
  }

  /** Every state of a run remembers every action taken before it. */
  lemma {:induction false} StartRecorded(status: int, actions: seq<Action>, k: nat)
    requires k < |actions| && Exec(Init(status), actions).Some?
    ensures Exec(Init(status), actions[..k]).Some?
    ensures Remembers(Exec(Init(status), actions).value, actions[k], Exec(Init(status), actions[..k]).value.latest)
  {
    hide Remembers, Step;
    var n := |actions| - 1;
    var s := Exec(Init(status), actions[..n]).value;
    if k == n {
      StepRecords(s, actions[k]);
    } else {
      StartRecorded(status, actions[..n], k);
      assert actions[..n][..k] == actions[..k];
      StepKeepsRecord(s, actions[n], actions[k], Exec(Init(status), actions[..k]).value.latest);
    }
  }

  ghost predicate AllStored(s: State) {
    forall h :: s.cursor < h <= s.last ==> h in s.indexed
  }

  predicate AllSucceeded(attempts: seq<Attempt>) {
    forall k :: 0 <= k < |attempts| ==> attempts[k].outcome == Indexed
  }

  lemma AllStoredExact(s: State)
    requires Consecutive(s) && s.cursor <= s.start
    ensures AllStored(s) <==> s.start == s.cursor && AllSucceeded(s.attempts)
  {
    if AllStored(s) {
      assert s.start !in s.indexed;
      forall k | 0 <= k < |s.attempts| ensures s.attempts[k].outcome == Indexed {
        assert s.start + 1 + k in s.indexed;
      }
    }
  }

  /** With a persisted cursor, an honest run has stored every height between it and the cursor
      it has reached if and only if it did not jump and no attempt failed. */
  lemma {:induction false} GapExact(status: int, actions: seq<Action>)
    requires Exec(Init(status), actions).Some? && HonestRun(Init(status), actions)
    ensures var s := Exec(Init(status), actions).value;
            Started(s) && s.cursor != -1 ==>
              (AllStored(s) <==> s.compared - s.cursor <= MAX_INDEXER_BACKLOG && AllSucceeded(s.attempts))
  {
    hide Exec, HonestRun, AllStored, AllSucceeded, Consecutive;
    StartExact(status, actions);
    CursorAlways(status, actions);
    var s := Exec(Init(status), actions).value;
    if Started(s) && s.cursor != -1 {
      AllStoredExact(s);
    }
  }

  // ------------------------------------------------------------------
  // The condition is exact
  // ------------------------------------------------------------------

  /** The heights attempted once are those above the start, up to the cursor. */
  ghost predicate CursorExact(s: State) {
    Started(s) ==> forall h :: AttemptedOnce(s.attempts, h) <==> s.start < h <= s.last
  }

  ghost predicate ExactThroughout(s: State, actions: seq<Action>)
    requires Exec(s, actions).Some?
  {
    && CursorExact(Exec(s, actions).value)
    && (actions == [] || ExactThroughout(s, actions[..|actions| - 1]))
  }

  /** The cursor is exact in every state of a run if and only if every result that arrived
      carried the height it was asked for. */
  lemma {:induction false} CursorExactIffHonest(status: int, actions: seq<Action>)
    requires Exec(Init(status), actions).Some?
    ensures ExactThroughout(Init(status), actions) <==> HonestRun(Init(status), actions)
  {
    hide CursorExact, Honest, Step;
    var s := Init(status);
    if HonestRun(s, actions) {
      ExactWhenHonest(status, actions);
    }
    if actions == [] {
    } else {
      var before, a := actions[..|actions| - 1], actions[|actions| - 1];
      CursorExactIffHonest(status, before);
      if ExactThroughout(s, actions) {
        CursorAlways(status, before);
        if !Honest(Exec(s, before).value, a) {
          DishonestIsInexact(Exec(s, before).value, a, status);
        }
      }
    }
  }

  lemma ExactWhenHonest(status: int, actions: seq<Action>)
    requires Exec(Init(status), actions).Some? && HonestRun(Init(status), actions)
    ensures CursorExact(Exec(Init(status), actions).value)
  {
    hide Exec, HonestRun;
    LiveCursorSafety(status, actions);
  }

  /** A result of another height leaves the cursor beside the heights attempted. */
  lemma DishonestIsInexact(s: State, a: Action, status: int)
    requires CursorInvariant(s, status) && Step(s, a).Some? && !Honest(s, a)
    ensures !CursorExact(Step(s, a).value)
  {
    var s' := Step(s, a).value;
    var i, n := s.pc.i, |s.attempts|;
    assert s'.attempts[n].height == i;
    if a.resultHeight < i {
      assert OnlyAt(s'.attempts, i, n);
      assert AttemptedOnce(s'.attempts, i);
    } else {
      assert !AttemptedOnce(s'.attempts, a.resultHeight);
    }
  }

  /** A stale answer makes the loop index the same height twice. */
  const STALE_RUN: seq<Action> :=
    [ReadCursor(3), Choose, Check, Loop, Work(Indexed, 3), Loop, Check, Loop, Work(Indexed, 3)]

  lemma {:induction false} StaleResultRepeats()
    ensures Exec(Init(4), STALE_RUN).Some?
    ensures Exec(Init(4), STALE_RUN).value.attempts == [Attempt(4, Indexed), Attempt(4, Indexed)]
  {
    hide Exec;
    var run, s := [], Init(4);
    NothingRun(s);
    run, s := Extended(4, run, s, ReadCursor(3));
    run, s := Extended(4, run, s, Choose);
    run, s := Extended(4, run, s, Check);
    run, s := Extended(4, run, s, Loop);
    run, s := Extended(4, run, s, Work(Indexed, 3));
    run, s := Extended(4, run, s, Loop);
    run, s := Extended(4, run, s, Check);
    run, s := Extended(4, run, s, Loop);
    run, s := Extended(4, run, s, Work(Indexed, 3));
    assert run == STALE_RUN;
  }

  lemma NothingRun(s: State)
    ensures Exec(s, []) == Some(s)
  {
  }

  lemma Extended(status: int, run: seq<Action>, s: State, a: Action) returns (run': seq<Action>, s': State)
    requires Exec(Init(status), run) == Some(s) && Step(s, a).Some?
    ensures run' == run + [a] && s' == Step(s, a).value && Exec(Init(status), run') == Some(s')
  {
    run', s' := run + [a], Step(s, a).value;
    assert run'[..|run|] == run;
  }

  /** One block more of backlog than the service replays: the block after the cursor is skipped. */
  lemma {:induction false} BacklogSkipped(cursor: nat)
    ensures var r := Exec(Init(cursor + MAX_INDEXER_BACKLOG + 1), [ReadCursor(cursor), Choose, Jump]);
            && r.Some? && Started(r.value) && r.value.cursor == cursor
            && r.value.last == cursor + 1 && cursor + 1 !in r.value.indexed
  {
    hide Exec;
    var status := cursor + MAX_INDEXER_BACKLOG + 1;
    var run, s := [], Init(status);
    NothingRun(s);
    run, s := Extended(status, run, s, ReadCursor(cursor));
    run, s := Extended(status, run, s, Choose);
    run, s := Extended(status, run, s, Jump);
    assert run == [ReadCursor(cursor), Choose, Jump];
  }
}
