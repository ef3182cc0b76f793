/**
  The record stream callback as node threads stepping through one lock.

  Each thread is fed the values of its stream in order and stops after a callback that returned an
  explicit false. A step is one action of one thread; a schedule is any sequence of thread numbers.
 */
module StreamCallback {
  import opened Wrappers

  /** Where a record leaves the callback: one of four early exits, or after the userland function. */
  datatype Fate = NoBins | NoMeta | NoAttach | NoCall | Called(explicitFalse: bool)

  datatype Value = Null | NotARecord | Record(id: nat, fate: Fate)

  datatype Pc =
    | Idle
    | Waiting(id: nat, fate: Fate)      // before the write lock
    | Bins(id: nat, fate: Fate)         // from here on the lock is held
    | Meta(id: nat, fate: Fate)
    | Attach(id: nat, fate: Fate)
    | Calling(id: nat, fate: Fate)
    | Userland(explicitFalse: bool)
    | Returning(again: bool)
    | Stopped

  datatype Thread = Thread(input: seq<Value>, todo: seq<Value>, pc: Pc, seen: seq<nat>, locks: nat, unlocks: nat)

  /** `fault`: some thread released a lock it did not hold. */
  datatype State = State(threads: seq<Thread>, owner: Option<nat>, fault: bool)

  predicate Finished(th: Thread) {
    th.pc.Stopped? || (th.pc.Idle? && th.todo == [])
  }

  function Set(s: State, t: nat, th: Thread): State
    requires t < |s.threads|
  {
    s.(threads := s.threads[t := th])
  }

  /** Unlock and go on with `pc`. */
  function Unlock(s: State, t: nat, pc: Pc): State
    requires t < |s.threads|
  {
    var th := s.threads[t];
    if s.owner == Some(t) then Set(s, t, th.(pc := pc, unlocks := th.unlocks + 1)).(owner := None)
    else Set(s, t, th.(pc := pc)).(fault := true)
  }

  /** The next action of thread `t`; none if it has finished or waits for the lock. */
  function Step(s: State, t: nat): Option<State> {
    if t >= |s.threads| then None
    else
      var th := s.threads[t];
      match th.pc
      case Idle =>
        if th.todo == [] then None
        else
          var rest := th.(todo := th.todo[1..]);
          (match th.todo[0]
           case Record(id, fate) => Some(Set(s, t, rest.(pc := Waiting(id, fate))))
           case _ => Some(Set(s, t, rest)))
      case Waiting(id, fate) =>
        if s.owner.Some? then None
        else Some(Set(s, t, th.(pc := Bins(id, fate), locks := th.locks + 1)).(owner := Some(t)))
      case Bins(id, fate) => Some(if fate.NoBins? then Unlock(s, t, Idle) else Set(s, t, th.(pc := Meta(id, fate))))
      case Meta(id, fate) => Some(if fate.NoMeta? then Unlock(s, t, Idle) else Set(s, t, th.(pc := Attach(id, fate))))
      case Attach(id, fate) => Some(if fate.NoAttach? then Unlock(s, t, Idle) else Set(s, t, th.(pc := Calling(id, fate))))
      case Calling(id, fate) =>
        Some(if fate.Called? then Set(s, t, th.(pc := Userland(fate.explicitFalse), seen := th.seen + [id])) else Unlock(s, t, Idle))
      case Userland(explicitFalse) => Some(Set(s, t, th.(pc := Returning(!explicitFalse))))
      case Returning(again) => Some(Unlock(s, t, if again then Idle else Stopped))
      case Stopped => None
  }

  /** Any interleaving: a scheduled thread that cannot move does not. */
  function Exec(s: State, schedule: seq<nat>): State
    decreases |schedule|
  {
    if schedule == [] then s
    else Exec(match Step(s, schedule[0]) case Some(s1) => s1 case None => s, schedule[1..])
  }

  function Start(inputs: seq<seq<Value>>): State {
    State(seq(|inputs|, i requires 0 <= i < |inputs| => Thread(inputs[i], inputs[i], Idle, [], 0, 0)), None, false)
  }

  // ----- what each callback should see, without threads or locks

  /** The records that reach the userland function, up to and including the first explicit false. */
  function Delivered(vs: seq<Value>): seq<nat> {
    if vs == [] then []
    else if vs[0].Record? && vs[0].fate.Called? then
      [vs[0].id] + (if vs[0].fate.explicitFalse then [] else Delivered(vs[1..]))
    else Delivered(vs[1..])
  }

  // ----- the invariant

  predicate Holding(pc: Pc) {
    !pc.Idle? && !pc.Waiting? && !pc.Stopped?
  }

  /** What a thread has still to deliver. */
  function Pending(th: Thread): seq<nat> {
    match th.pc
    case Idle => Delivered(th.todo)
    case Userland(explicitFalse) => if explicitFalse then [] else Delivered(th.todo)
    case Returning(again) => if again then Delivered(th.todo) else []
    case Stopped => []
    case _ => Delivered([Record(th.pc.id, th.pc.fate)] + th.todo)
  }

  ghost predicate ThreadOk(s: State, t: nat)
    requires t < |s.threads|
  {
    var th := s.threads[t];
    && th.seen + Pending(th) == Delivered(th.input)
    && (Holding(th.pc) <==> s.owner == Some(t))
    && th.locks == th.unlocks + (if Holding(th.pc) then 1 else 0)
  }

  ghost predicate Inv(s: State) {
    && !s.fault
    && (s.owner.Some? ==> s.owner.value < |s.threads|)
    && forall t :: 0 <= t < |s.threads| ==> ThreadOk(s, t)
  }

  lemma StepKeepsInv(s: State, t: nat)
    requires Inv(s) && Step(s, t).Some?
    ensures Inv(Step(s, t).value)
  {
    var s1 := Step(s, t).value;
    var th := s.threads[t];
    assert ThreadOk(s, t);
    ThreadStep(s, t);
    forall u | 0 <= u < |s1.threads| ensures ThreadOk(s1, u) {
      assert ThreadOk(s, u);
    }
  }

  /** The moving thread: what it has delivered and what is pending stay in balance. */
  lemma ThreadStep(s: State, t: nat)
    requires Inv(s) && Step(s, t).Some?
    ensures |Step(s, t).value.threads| == |s.threads| && ThreadOk(Step(s, t).value, t)
  {
    var th := s.threads[t];
    var th1 := Step(s, t).value.threads[t];
    assert ThreadOk(s, t);
    if th.pc.Idle? {
      assert th.todo == [th.todo[0]] + th.todo[1..];
    } else if th.pc.Waiting? || th.pc.Bins? || th.pc.Meta? || th.pc.Attach? || th.pc.Calling? {
      assert ([Record(th.pc.id, th.pc.fate)] + th.todo)[1..] == th.todo;
      if th1.seen != th.seen {
        assert th1.seen + Pending(th1) == th.seen + ([th.pc.id] + Pending(th1));
      }
    }
  }

  lemma {:induction false} ExecKeepsInv(s: State, schedule: seq<nat>)
    requires Inv(s)
    ensures Inv(Exec(s, schedule)) && |Exec(s, schedule).threads| == |s.threads|
    ensures forall t :: 0 <= t < |s.threads| ==> Exec(s, schedule).threads[t].input == s.threads[t].input
    decreases |schedule|
  {
    if schedule != [] {
      if Step(s, schedule[0]).Some? {
        StepKeepsInv(s, schedule[0]);
        ExecKeepsInv(Step(s, schedule[0]).value, schedule[1..]);
      } else {
        ExecKeepsInv(s, schedule[1..]);
      }
    }
  }

  lemma StartInv(inputs: seq<seq<Value>>)
    ensures Inv(Start(inputs))
  {}

  // ----- the theorems

  /** Under every schedule: no unlock without the lock, no two threads between lock and unlock (so none two
      in userland), every lock matched by one unlock once the thread is out, and what each userland function
      has seen so far is a prefix of what it should see. */
  lemma Safety(inputs: seq<seq<Value>>, schedule: seq<nat>)
    ensures var s := Exec(Start(inputs), schedule);
            && !s.fault && |s.threads| == |inputs|
            && (forall t, u :: 0 <= t < |inputs| && 0 <= u < |inputs| && Holding(s.threads[t].pc) && Holding(s.threads[u].pc) ==> t == u)
            && (forall t :: 0 <= t < |inputs| && !Holding(s.threads[t].pc) ==> s.threads[t].locks == s.threads[t].unlocks)
            && (forall t :: 0 <= t < |inputs| ==> s.threads[t].seen <= Delivered(inputs[t]))
  {
    StartInv(inputs);
    ExecKeepsInv(Start(inputs), schedule);
    var s := Exec(Start(inputs), schedule);
    forall t | 0 <= t < |inputs|
      ensures s.threads[t].seen <= Delivered(inputs[t])
      ensures Holding(s.threads[t].pc) ==> s.owner == Some(t)
      ensures !Holding(s.threads[t].pc) ==> s.threads[t].locks == s.threads[t].unlocks
    {
      assert ThreadOk(s, t);
    }
  }

  /** As long as some thread has not finished, some thread can move. */
  lemma NoDeadlock(s: State, t: nat)
    requires Inv(s) && t < |s.threads| && !Finished(s.threads[t])
    ensures exists u :: 0 <= u < |s.threads| && Step(s, u).Some?
  {
    assert ThreadOk(s, t);
    if Step(s, t).None? {
      var u := s.owner.value;
      assert ThreadOk(s, u);
      assert Step(s, u).Some?;
    }
  }

  /** Actions left in a thread, at most. */
  function Left(th: Thread): nat {
    8 * |th.todo| + match th.pc
      case Idle => 0
      case Waiting(_, _) => 7
      case Bins(_, _) => 6
      case Meta(_, _) => 5
      case Attach(_, _) => 4
      case Calling(_, _) => 3
      case Userland(_) => 2
      case Returning(_) => 1
      case Stopped => 0
  }

  function Work(threads: seq<Thread>): nat {
    if threads == [] then 0 else Left(threads[0]) + Work(threads[1..])
  }

  lemma {:induction false} WorkUpdate(threads: seq<Thread>, t: nat, th: Thread)
    requires t < |threads|
    ensures Work(threads[t := th]) == Work(threads) - Left(threads[t]) + Left(th)
  {
    if t == 0 {
      assert threads[0 := th][1..] == threads[1..];
    } else {
      WorkUpdate(threads[1..], t - 1, th);
      assert threads[t := th][1..] == threads[1..][t - 1 := th];
    }
  }

  /** Every action uses up work, so no run has more actions than the work it starts with. */
  lemma StepUsesWork(s: State, t: nat)
    requires Step(s, t).Some?
    ensures Work(Step(s, t).value.threads) < Work(s.threads)
  {
    hide Work;
    var s1 := Step(s, t).value;
    WorkUpdate(s.threads, t, s1.threads[t]);
    assert s1.threads == s.threads[t := s1.threads[t]];
  }

  /** Actions taken in a schedule. */
  function Moves(s: State, schedule: seq<nat>): nat
    decreases |schedule|
  {
    if schedule == [] then 0
    else
      match Step(s, schedule[0])
      case Some(s1) => 1 + Moves(s1, schedule[1..])
      case None => Moves(s, schedule[1..])
  }

  lemma {:induction false} MovesBounded(s: State, schedule: seq<nat>)
    ensures Moves(s, schedule) + Work(Exec(s, schedule).threads) <= Work(s.threads)
    decreases |schedule|
  {
    if schedule != [] {
      if Step(s, schedule[0]).Some? {
        StepUsesWork(s, schedule[0]);
        MovesBounded(Step(s, schedule[0]).value, schedule[1..]);
      } else {
        MovesBounded(s, schedule[1..]);
      }
    }
  }

  /** Whatever schedule led there, once no thread can move each userland function has seen exactly its
      stream's deliverable records, in order, and the lock is free. */
  lemma Completion(inputs: seq<seq<Value>>, schedule: seq<nat>)
    requires var s := Exec(Start(inputs), schedule); forall t :: 0 <= t < |s.threads| ==> Step(s, t).None?
    ensures var s := Exec(Start(inputs), schedule);
            && |s.threads| == |inputs| && s.owner == None
            && forall t :: 0 <= t < |inputs| ==> Finished(s.threads[t]) && s.threads[t].seen == Delivered(inputs[t])
  {
    StartInv(inputs);
    ExecKeepsInv(Start(inputs), schedule);
    var s := Exec(Start(inputs), schedule);
    assert s.owner.Some? ==> ThreadOk(s, s.owner.value) && Holding(s.threads[s.owner.value].pc);
    forall t | 0 <= t < |s.threads| ensures Finished(s.threads[t]) && s.threads[t].seen == Delivered(s.threads[t].input) {
      if !Finished(s.threads[t]) {
        NoDeadlock(s, t);
        assert false;
      }
      assert ThreadOk(s, t);
      assert Delivered([]) == [];
    }
  }
}
