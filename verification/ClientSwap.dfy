/** internal/api/client_swap.go: the hot-swappable client, one step per atomic operation,
    for any number of concurrent callers and any schedule. */
module ClientSwap {

  type Ref = nat    // a clientRef, numbered in the order of creation
  type Tid = nat    // one call of acquire (and its release), swap or closeCurrent

  /** Where a call stands. */
  datatype Pc =
    | Loaded(ref: Ref)        // acquire: current loaded, refs not yet bumped
    | Holding(ref: Ref)       // acquire returned; release not yet called
    | Dropped(ref: Ref)       // release: refs went to zero, closing not yet read
    | Unlinked(ref: Ref)      // swap or closeCurrent: closing not yet set
    | Marked(ref: Ref)        // swap or closeCurrent: closing set, refs not yet read
    | ClosingOnce(ref: Ref)   // closeOnce: about to compare and swap closed
    | WonClose(ref: Ref)      // closeOnce: swapped closed, Close not yet called
    | Finished

  datatype Cell = Cell(refs: int, closing: bool, closed: bool, closeCalls: nat)

  datatype State = State(current: Ref, cells: seq<Cell>, calls: seq<Pc>)

  datatype Action =
    | Acquire          // a new acquire loads current
    | Swap             // a new swap exchanges current for a new reference
    | CloseCurrent     // a new closeCurrent loads current
    | Step(t: Tid)     // the next atomic operation of a call; for a holder, its release begins

  const NEW_CELL := Cell(0, false, false, 0)

  const INITIAL := State(0, [NEW_CELL], [])

  /** One atomic operation; a step of a call that is over changes nothing. */
  function Do(s: State, a: Action): State {
    match a
    case Acquire => s.(calls := s.calls + [Loaded(s.current)])
    case Swap => State(|s.cells|, s.cells + [NEW_CELL], s.calls + [Unlinked(s.current)])
    case CloseCurrent => s.(calls := s.calls + [Unlinked(s.current)])
    case Step(t) => if CanStep(s, t) then Advance(s, t) else s
  }

  predicate CanStep(s: State, t: Tid) {
    t < |s.calls| && !s.calls[t].Finished? && s.calls[t].ref < |s.cells|
  }

  function Advance(s: State, t: Tid): State
    requires CanStep(s, t)
  {
    var pc := s.calls[t];
    var c := s.cells[pc.ref];
    s.(cells := s.cells[pc.ref := NextCell(pc, c)], calls := s.calls[t := NextPc(pc, c)])
  }

  /** What the next atomic operation of a call does to its reference. */
  function NextCell(pc: Pc, c: Cell): Cell {
    match pc
    case Loaded(_) => c.(refs := c.refs + 1)
    case Holding(_) => c.(refs := c.refs - 1)
    case Unlinked(_) => c.(closing := true)
    case ClosingOnce(_) => c.(closed := true)
    case WonClose(_) => c.(closeCalls := c.closeCalls + 1)
    case _ => c
  }

  /** Where the call stands after it, given the reference before it. */
  function NextPc(pc: Pc, c: Cell): Pc
    requires !pc.Finished?
  {
    match pc
    case Loaded(r) => Holding(r)
    case Holding(r) => if c.refs - 1 == 0 then Dropped(r) else Finished
    case Dropped(r) => if c.closing then ClosingOnce(r) else Finished
    case Unlinked(r) => Marked(r)
    case Marked(r) => if c.refs == 0 then ClosingOnce(r) else Finished
    case ClosingOnce(r) => if c.closed then Finished else WonClose(r)
    case WonClose(r) => Finished
  }

  /** A schedule, run from left to right. */
  function Exec(s: State, schedule: seq<Action>): State
    decreases |schedule|
  {
    if schedule == [] then s else Exec(Do(s, schedule[0]), schedule[1..])
  }

  // ---------------------------------------------------------------- counting calls

  /** How many calls stand at each place with one reference. */
  datatype Tally = Tally(
    loaded: int, holding: int, dropped: int, unlinked: int, marked: int, closingOnce: int, wonClose: int)

  predicate About(pc: Pc, r: Ref) {
    !pc.Finished? && pc.ref == r
  }

  /** The tally with `d` more calls at the place of `pc`. */
  function Bump(k: Tally, pc: Pc, d: int): Tally {
    match pc
    case Loaded(_) => k.(loaded := k.loaded + d)
    case Holding(_) => k.(holding := k.holding + d)
    case Dropped(_) => k.(dropped := k.dropped + d)
    case Unlinked(_) => k.(unlinked := k.unlinked + d)
    case Marked(_) => k.(marked := k.marked + d)
    case ClosingOnce(_) => k.(closingOnce := k.closingOnce + d)
    case WonClose(_) => k.(wonClose := k.wonClose + d)
    case Finished => k
  }

  /** How many calls a tally counts at the place of `pc`. */
  function Num(k: Tally, pc: Pc): int {
    match pc
    case Loaded(_) => k.loaded
    case Holding(_) => k.holding
    case Dropped(_) => k.dropped
    case Unlinked(_) => k.unlinked
    case Marked(_) => k.marked
    case ClosingOnce(_) => k.closingOnce
    case WonClose(_) => k.wonClose
    case Finished => 0
  }

  function Shift(k: Tally, pc: Pc, r: Ref, d: int): Tally {
    if About(pc, r) then Bump(k, pc, d) else k
  }

  ghost predicate Counts(k: Tally) {
    && k.loaded >= 0 && k.holding >= 0 && k.dropped >= 0 && k.unlinked >= 0
    && k.marked >= 0 && k.closingOnce >= 0 && k.wonClose >= 0
  }

  function TallyOf(calls: seq<Pc>, r: Ref): Tally {
    if calls == [] then Tally(0, 0, 0, 0, 0, 0, 0)
    else Shift(TallyOf(calls[..|calls| - 1], r), calls[|calls| - 1], r, 1)
  }

  lemma TallySnoc(calls: seq<Pc>, pc: Pc, r: Ref)
    ensures TallyOf(calls + [pc], r) == Shift(TallyOf(calls, r), pc, r, 1)
  {
    assert (calls + [pc])[..|calls|] == calls;
  }

  lemma Commute(k: Tally, a: Pc, b: Pc, r: Ref)
    ensures Shift(Shift(k, a, r, 1), b, r, 1) == Shift(Shift(k, b, r, 1), a, r, 1)
    ensures Shift(Shift(k, a, r, 1), a, r, -1) == k
  {
  }

  function Remove(calls: seq<Pc>, t: Tid): seq<Pc>
    requires t < |calls|
  {
    calls[..t] + calls[t + 1..]
  }

  /** The order of calls does not matter to the tally. */
  lemma {:induction false} TallyRemove(calls: seq<Pc>, t: Tid, r: Ref)
    requires t < |calls|
    ensures TallyOf(calls, r) == Shift(TallyOf(Remove(calls, t), r), calls[t], r, 1)
    decreases |calls|
  {
    var front, last := calls[..|calls| - 1], calls[|calls| - 1];
    if t == |front| {
      assert Remove(calls, t) == front;
    } else {
      TallyRemove(front, t, r);
      assert Remove(calls, t) == Remove(front, t) + [last];
      TallySnoc(Remove(front, t), last, r);
      Commute(TallyOf(Remove(front, t), r), calls[t], last, r);
    }
  }

  /** When a call moves, one place loses it and another gains it. */
  lemma TallyMoves(calls: seq<Pc>, t: Tid, to: Pc, r: Ref)
    requires t < |calls|
    ensures TallyOf(calls[t := to], r) == Shift(Shift(TallyOf(calls, r), calls[t], r, -1), to, r, 1)
    ensures Counts(Shift(TallyOf(calls, r), calls[t], r, -1))
  {
    TallyRemove(calls, t, r);
    TallyRemove(calls[t := to], t, r);
    assert Remove(calls[t := to], t) == Remove(calls, t);
    Commute(TallyOf(Remove(calls, t), r), calls[t], to, r);
    TallyCounts(Remove(calls, t), r);
  }

  lemma {:induction false} TallyCounts(calls: seq<Pc>, r: Ref)
    ensures Counts(TallyOf(calls, r))
    ensures (forall t :: 0 <= t < |calls| ==> !About(calls[t], r)) ==> TallyOf(calls, r) == Tally(0, 0, 0, 0, 0, 0, 0)
    decreases |calls|
  {
    if calls != [] {
      TallyCounts(calls[..|calls| - 1], r);
    }
  }

  /** Where the tally counts somebody, there is somebody. */
  lemma {:induction false} Someone(calls: seq<Pc>, pc: Pc) returns (t: Tid)
    requires !pc.Finished? && Num(TallyOf(calls, pc.ref), pc) > 0
    ensures t < |calls| && calls[t] == pc
    decreases |calls|
  {
    if calls[|calls| - 1] == pc {
      return |calls| - 1;
    }
    t := Someone(calls[..|calls| - 1], pc);
  }

  // ---------------------------------------------------------------- what every step keeps

  /** A reference and the calls around it: the count is right, Close is called by whoever won the
      exchange, a closing reference at zero has somebody attending to it, and one that is no longer
      current is closing or about to be. */
  ghost predicate Good(c: Cell, k: Tally, current: bool) {
    && Counts(k)
    && c.refs == k.holding
    && c.closeCalls + k.wonClose == (if c.closed then 1 else 0)
    && (c.closed ==> c.closing)
    && (k.marked > 0 || k.closingOnce > 0 ==> c.closing)
    && (c.closing && c.refs == 0 && !c.closed ==> k.dropped > 0 || k.marked > 0 || k.closingOnce > 0)
    && (!current && !c.closing ==> k.unlinked > 0)
  }

  ghost predicate GoodRef(s: State, r: Ref)
    requires r < |s.cells|
  {
    Good(s.cells[r], TallyOf(s.calls, r), r == s.current)
  }

  ghost predicate KnownRefs(s: State) {
    forall t :: 0 <= t < |s.calls| ==> s.calls[t].Finished? || s.calls[t].ref < |s.cells|
  }

  ghost predicate Inv(s: State) {
    && s.current < |s.cells|
    && KnownRefs(s)
    && (forall r :: 0 <= r < |s.cells| ==> GoodRef(s, r))
  }

  lemma StepIsGood(pc: Pc, c: Cell, k: Tally, current: bool)
    requires !pc.Finished? && Good(c, k, current) && Counts(Bump(k, pc, -1))
    ensures Good(NextCell(pc, c), Bump(Bump(k, pc, -1), NextPc(pc, c), 1), current)
  {
  }

  lemma AdvanceKeepsRef(s: State, t: Tid, r: Ref)
    requires CanStep(s, t) && r < |s.cells| && GoodRef(s, r)
    ensures GoodRef(Advance(s, t), r)
  {
    var pc := s.calls[t];
    var c := s.cells[pc.ref];
    TallyMoves(s.calls, t, NextPc(pc, c), r);
    if pc.ref == r {
      StepIsGood(pc, c, TallyOf(s.calls, r), r == s.current);
    }
  }

  lemma StartKeepsRef(s: State, a: Action, r: Ref)
    requires Inv(s) && !a.Step? && r < |Do(s, a).cells|
    ensures GoodRef(Do(s, a), r)
  {
    if r == |s.cells| {
      NewRefIsGood(s);
    } else {
      assert GoodRef(s, r);
      TallySnoc(s.calls, if a == Acquire then Loaded(s.current) else Unlinked(s.current), r);
    }
  }

  lemma NewRefIsGood(s: State)
    requires s.current < |s.cells| && KnownRefs(s)
    ensures GoodRef(Do(s, Swap), |s.cells|)
  {
    TallySnoc(s.calls, Unlinked(s.current), |s.cells|);
    TallyCounts(s.calls, |s.cells|);
  }

  lemma DoKeepsInv(s: State, a: Action)
    requires Inv(s)
    ensures Inv(Do(s, a))
  {
    forall r | 0 <= r < |Do(s, a).cells|
      ensures GoodRef(Do(s, a), r)
    {
      if !a.Step? {
        StartKeepsRef(s, a, r);
      } else if CanStep(s, a.t) {
        AdvanceKeepsRef(s, a.t, r);
      }
    }
    DoKeepsRefs(s, a);
  }

  lemma DoKeepsRefs(s: State, a: Action)
    requires s.current < |s.cells| && KnownRefs(s)
    ensures Do(s, a).current < |Do(s, a).cells| && KnownRefs(Do(s, a))
  {
  }

  lemma {:induction false} RunKeepsInv(s: State, schedule: seq<Action>)
    requires Inv(s)
    ensures Inv(Exec(s, schedule))
    decreases |schedule|
  {
    if schedule != [] {
      DoKeepsInv(s, schedule[0]);
      RunKeepsInv(Do(s, schedule[0]), schedule[1..]);
    }
  }

  lemma Reachable(schedule: seq<Action>)
    ensures Inv(Exec(INITIAL, schedule))
  {
    assert Inv(INITIAL);
    RunKeepsInv(INITIAL, schedule);
  }

  // ---------------------------------------------------------------- closed exactly once

  /** No operation is in flight: every call has finished or holds a client. */
  ghost predicate Quiet(s: State) {
    forall t :: 0 <= t < |s.calls| ==> s.calls[t].Holding? || s.calls[t].Finished?
  }

  ghost predicate Held(s: State, r: Ref) {
    exists t :: 0 <= t < |s.calls| && s.calls[t] == Holding(r)
  }

  lemma {:induction false} HeldCounts(s: State, r: Ref)
    ensures Held(s, r) <==> TallyOf(s.calls, r).holding > 0
  {
    if t :| 0 <= t < |s.calls| && s.calls[t] == Holding(r) {
      TallyMoves(s.calls, t, Finished, r);
    } else if TallyOf(s.calls, r).holding > 0 {
      var t := Someone(s.calls, Holding(r));
      assert false;
    }
  }

  lemma QuietTally(s: State, r: Ref)
    requires Quiet(s)
    ensures var k := TallyOf(s.calls, r);
      k.dropped <= 0 && k.unlinked <= 0 && k.marked <= 0 && k.closingOnce <= 0 && k.wonClose <= 0
  {
    forall pc: Pc | !pc.Holding? && About(pc, r) && Num(TallyOf(s.calls, r), pc) > 0
      ensures false
    {
      var t := Someone(s.calls, pc);
    }
    var k := TallyOf(s.calls, r);
    assert Num(k, Dropped(r)) <= 0 && Num(k, Unlinked(r)) <= 0 && Num(k, Marked(r)) <= 0;
    assert Num(k, ClosingOnce(r)) <= 0 && Num(k, WonClose(r)) <= 0;
  }

  /** For every schedule: no client is closed twice; none is closed before it was told to; and when
      no operation is in flight, a client that was swapped out or told to close, and that nobody
      holds, has been closed exactly once. */
  lemma ClosedExactlyOnce(schedule: seq<Action>, r: Ref)
    requires r < |Exec(INITIAL, schedule).cells|
    ensures var s := Exec(INITIAL, schedule);
      var c := s.cells[r];
      && c.closeCalls <= 1
      && (c.closeCalls == 1 ==> c.closing)
      && (c.refs > 0 <==> Held(s, r))
      && (Quiet(s) && (r != s.current || c.closing) && !Held(s, r) ==> c.closeCalls == 1)
  {
    Reachable(schedule);
    var s := Exec(INITIAL, schedule);
    assert GoodRef(s, r);
    HeldCounts(s, r);
    if Quiet(s) {
      QuietTally(s, r);
    }
  }

  /** The client is marked as closing, or some call is on its way to mark it. */
  ghost predicate Bound(s: State, r: Ref) {
    r < |s.cells| && (s.cells[r].closing || exists t :: 0 <= t < |s.calls| && s.calls[t] == Unlinked(r))
  }

  lemma StaysBound(s: State, a: Action, r: Ref)
    requires Bound(s, r)
    ensures Bound(Do(s, a), r)
  {
    if !s.cells[r].closing {
      var t :| 0 <= t < |s.calls| && s.calls[t] == Unlinked(r);
      assert a != Step(t) ==> Do(s, a).calls[t] == Unlinked(r);
    }
  }

  lemma {:induction false} BoundForever(s: State, schedule: seq<Action>, r: Ref)
    requires Bound(s, r)
    ensures Bound(Exec(s, schedule), r)
    decreases |schedule|
  {
    if schedule != [] {
      StaysBound(s, schedule[0], r);
      BoundForever(Do(s, schedule[0]), schedule[1..], r);
    }
  }

  /** A swap or a close takes effect on the client that is current when it begins, whatever comes before and after: once
      no operation is in flight the client is closing, and if nobody holds it, it has been closed exactly once. */
  lemma CloseTakesEffect(before: seq<Action>, a: Action, after: seq<Action>)
    requires a == CloseCurrent || a == Swap
    ensures var r := Exec(INITIAL, before).current;
      var s := Exec(Do(Exec(INITIAL, before), a), after);
      r < |s.cells| && (Quiet(s) ==> s.cells[r].closing && (!Held(s, r) ==> s.cells[r].closeCalls == 1))
  {
    var s0 := Exec(INITIAL, before);
    var r, s1 := s0.current, Do(s0, a);
    Reachable(before);
    assert s1.calls[|s0.calls|] == Unlinked(r);
    BoundForever(s1, after, r);
    ExecConcat(INITIAL, before, [a] + after);
    assert ([a] + after)[1..] == after;
    ClosedExactlyOnce(before + ([a] + after), r);
  }

  // ---------------------------------------------------------------- when a held client stays open

  /** `Close` has run on a client that somebody holds. */
  ghost predicate HeldAndClosed(s: State, r: Ref) {
    r < |s.cells| && s.cells[r].closeCalls == 1 && Held(s, r)
  }

  /** Somebody holds a client whose `closed` is set: `Close` has run or is about to. */
  ghost predicate HeldAndDoomed(s: State, r: Ref) {
    r < |s.cells| && s.cells[r].closed && Held(s, r)
  }

  /** No acquire stands between its two steps, and while there are holders nobody is past the
      decision to close. */
  ghost predicate Guarded(c: Cell, k: Tally) {
    && k.loaded == 0
    && (c.refs > 0 ==> k.dropped == 0 && k.closingOnce == 0 && !c.closed)
  }

  ghost predicate GuardedRef(s: State, r: Ref)
    requires r < |s.cells|
  {
    Guarded(s.cells[r], TallyOf(s.calls, r))
  }

  lemma StepStaysGuarded(pc: Pc, c: Cell, k: Tally)
    requires !pc.Finished? && Good(c, k, false) && Guarded(c, k) && Counts(Bump(k, pc, -1))
    ensures Guarded(NextCell(pc, c), Bump(Bump(k, pc, -1), NextPc(pc, c), 1))
  {
  }

  lemma AdvanceStaysGuarded(s: State, t: Tid, r: Ref)
    requires CanStep(s, t) && r < |s.cells| && r != s.current && GoodRef(s, r) && GuardedRef(s, r)
    ensures GuardedRef(Advance(s, t), r)
  {
    var pc := s.calls[t];
    var c := s.cells[pc.ref];
    TallyMoves(s.calls, t, NextPc(pc, c), r);
    if pc.ref == r {
      StepStaysGuarded(pc, c, TallyOf(s.calls, r));
    }
  }

  lemma GuardedStays(s: State, a: Action, r: Ref)
    requires r < |s.cells| && r != s.current && GoodRef(s, r) && GuardedRef(s, r)
    ensures r < |Do(s, a).cells| && r != Do(s, a).current && GuardedRef(Do(s, a), r)
  {
    if !a.Step? {
      TallySnoc(s.calls, if a == Acquire then Loaded(s.current) else Unlinked(s.current), r);
    } else if CanStep(s, a.t) {
      AdvanceStaysGuarded(s, a.t, r);
    }
  }

  lemma {:induction false} GuardedForever(s: State, schedule: seq<Action>, r: Ref)
    requires Inv(s) && r < |s.cells| && r != s.current && GuardedRef(s, r)
    ensures !HeldAndClosed(Exec(s, schedule), r)
    decreases |schedule|
  {
    assert GoodRef(s, r);
    if schedule == [] {
      HeldCounts(s, r);
    } else {
      DoKeepsInv(s, schedule[0]);
      GuardedStays(s, schedule[0], r);
      GuardedForever(Do(s, schedule[0]), schedule[1..], r);
    }
  }

  lemma {:induction false} ExecConcat(s: State, p: seq<Action>, q: seq<Action>)
    ensures Exec(s, p + q) == Exec(Exec(s, p), q)
    decreases |p|
  {
    if p == [] {
      assert p + q == q;
    } else {
      assert (p + q)[1..] == p[1..] + q;
      ExecConcat(Do(s, p[0]), p[1..], q);
    }
  }

  /** Call `t` stands at `pc`. */
  ghost predicate Stands(s: State, t: Tid, pc: Pc) {
    t < |s.calls| && s.calls[t] == pc
  }

  /** All holders of `r` can release it while two other calls stand still. */
  lemma {:induction false} Drain(s: State, r: Ref, t: Tid, u: Tid) returns (schedule: seq<Action>)
    requires Inv(s) && r < |s.cells| && Stands(s, t, Unlinked(r)) && Stands(s, u, Loaded(r))
    ensures var z := Exec(s, schedule);
      r < |z.cells| && z.cells[r].refs == 0 && Stands(z, t, Unlinked(r)) && Stands(z, u, Loaded(r))
    decreases s.cells[r].refs
  {
    assert GoodRef(s, r);
    if s.cells[r].refs == 0 {
      return [];
    }
    var h := Someone(s.calls, Holding(r));
    DoKeepsInv(s, Step(h));
    var rest := Drain(Do(s, Step(h)), r, t, u);
    schedule := [Step(h)] + rest;
    assert schedule[1..] == rest;
  }

  lemma FourSteps(z: State, tail: seq<Action>)
    requires |tail| == 4
    ensures Exec(z, tail) == Do(Do(Do(Do(z, tail[0]), tail[1]), tail[2]), tail[3])
  {
    var z1 := Do(z, tail[0]);
    var z2 := Do(z1, tail[1]);
    var z3 := Do(z2, tail[2]);
    assert Exec(z, tail) == Exec(z1, tail[1..]);
    assert tail[1..][1..] == tail[2..];
    assert Exec(z1, tail[1..]) == Exec(z2, tail[2..]);
    assert tail[2..][1..] == tail[3..];
    assert Exec(z2, tail[2..]) == Exec(z3, tail[3..]);
    assert tail[3..][1..] == [];
  }

  lemma CloseThenCount(z: State, r: Ref, t: Tid, u: Tid) returns (tail: seq<Action>)
    requires r < |z.cells| && z.cells[r].refs == 0 && Stands(z, t, Unlinked(r)) && Stands(z, u, Loaded(r))
    ensures HeldAndDoomed(Exec(z, tail), r)
  {
    tail := [Step(t), Step(t), Step(t), Step(u)];
    FourSteps(z, tail);
    assert Stands(Exec(z, tail), u, Holding(r));
  }

  /** An acquire caught between its two steps ends up holding a doomed client: the holders leave,
      the swapper finds no references and closes, and only then the acquire counts itself in. */
  lemma LateAcquire(s: State, r: Ref, t: Tid, u: Tid) returns (schedule: seq<Action>)
    requires Inv(s) && r < |s.cells| && Stands(s, t, Unlinked(r)) && Stands(s, u, Loaded(r))
    ensures HeldAndDoomed(Exec(s, schedule), r)
  {
    var drained := Drain(s, r, t, u);
    var tail := CloseThenCount(Exec(s, drained), r, t, u);
    ExecConcat(s, drained, tail);
    schedule := drained + tail;
  }

  /** A release caught after its decrement dooms the client under a holder who came later. */
  lemma LateRelease(s: State, r: Ref, t: Tid, u: Tid, h: Tid) returns (schedule: seq<Action>)
    requires r < |s.cells| && Stands(s, t, Unlinked(r)) && Stands(s, u, Dropped(r)) && Stands(s, h, Holding(r))
    ensures HeldAndDoomed(Exec(s, schedule), r)
  {
    schedule := [Step(t), Step(u), Step(u), Step(u)];
    FourSteps(s, schedule);
    assert Stands(Exec(s, schedule), h, Holding(r));
  }

  /** Whoever set `closed` goes on to call `Close`, and nobody has to let go before that. */
  lemma CloseRuns(s: State, r: Ref) returns (schedule: seq<Action>)
    requires Inv(s) && HeldAndDoomed(s, r)
    ensures HeldAndClosed(Exec(s, schedule), r)
  {
    assert GoodRef(s, r);
    schedule := [];
    if s.cells[r].closeCalls == 0 {
      var h :| 0 <= h < |s.calls| && s.calls[h] == Holding(r);
      var u := Someone(s.calls, WonClose(r));
      schedule := [Step(u)];
      assert Exec(s, schedule) == Do(s, Step(u));
      assert Stands(Do(s, Step(u)), h, Holding(r));
    }
  }

  /** A schedule that dooms a held client, with the step that closes it. */
  lemma ThenCloseRuns(s: State, doomed: seq<Action>, r: Ref) returns (schedule: seq<Action>)
    requires Inv(s) && HeldAndDoomed(Exec(s, doomed), r)
    ensures HeldAndClosed(Exec(s, schedule), r)
  {
    RunKeepsInv(s, doomed);
    var tail := CloseRuns(Exec(s, doomed), r);
    ExecConcat(s, doomed, tail);
    schedule := doomed + tail;
  }

  lemma Doom(s: State, r: Ref, t: Tid) returns (schedule: seq<Action>)
    requires Inv(s) && r < |s.cells| && Stands(s, t, Unlinked(r)) && !GuardedRef(s, r)
    ensures HeldAndDoomed(Exec(s, schedule), r)
  {
    var c, k := s.cells[r], TallyOf(s.calls, r);
    assert GoodRef(s, r);
    if k.loaded != 0 {
      var u := Someone(s.calls, Loaded(r));
      schedule := LateAcquire(s, r, t, u);
      return;
    }
    var h := Someone(s.calls, Holding(r));
    if c.closed {
      schedule := [];
    } else if k.dropped != 0 {
      var u := Someone(s.calls, Dropped(r));
      schedule := LateRelease(s, r, t, u, h);
    } else {
      var u := Someone(s.calls, ClosingOnce(r));
      schedule := [Step(u)];
      assert Exec(s, schedule) == Do(s, Step(u));
      assert Stands(Do(s, Step(u)), h, Holding(r));
    }
  }

  lemma Unguarded(s: State, r: Ref, t: Tid) returns (schedule: seq<Action>)
    requires Inv(s) && r < |s.cells| && Stands(s, t, Unlinked(r)) && !GuardedRef(s, r)
    ensures HeldAndClosed(Exec(s, schedule), r)
  {
    var doomed := Doom(s, r, t);
    schedule := ThenCloseRuns(s, doomed, r);
  }

  /** Whatever happens from here on, `r` is not closed while somebody holds it. */
  ghost predicate NeverClosedWhileHeld(s: State, r: Ref) {
    forall after :: !HeldAndClosed(Exec(s, after), r)
  }

  lemma GuardedIff(s: State, r: Ref, t: Tid)
    requires Inv(s) && r < |s.cells| && r != s.current && Stands(s, t, Unlinked(r))
    ensures NeverClosedWhileHeld(s, r) <==> GuardedRef(s, r)
  {
    if GuardedRef(s, r) {
      forall after
        ensures !HeldAndClosed(Exec(s, after), r)
      {
        GuardedForever(s, after, r);
      }
    } else {
      var after := Unguarded(s, r, t);
      assert HeldAndClosed(Exec(s, after), r);
    }
  }

  lemma SwapSafeFrom(s: State)
    requires Inv(s)
    ensures NeverClosedWhileHeld(Do(s, Swap), s.current) <==> GuardedRef(s, s.current)
  {
    DoKeepsInv(s, Swap);
    TallySnoc(s.calls, Unlinked(s.current), s.current);
    GuardedIff(Do(s, Swap), s.current, |s.calls|);
  }

  /** A swap promises that the old client is closed only after its users released it. From a
      reachable state this promise can be kept, whatever happens after the swap, if and only if at
      the moment of the swap no acquire is between its two steps on the old client, and, if the old
      client is held, no release is between its decrement and its closing check and nobody has
      decided to close it. */
  lemma SwapSafeIff(before: seq<Action>)
    ensures var s := Exec(INITIAL, before);
      s.current < |s.cells| && (NeverClosedWhileHeld(Do(s, Swap), s.current) <==> GuardedRef(s, s.current))
  {
    Reachable(before);
    SwapSafeFrom(Exec(INITIAL, before));
  }

  /** The promise fails already with one user and one swap. */
  lemma HeldClientCanBeClosed() returns (schedule: seq<Action>)
    ensures HeldAndClosed(Exec(INITIAL, schedule), 0)
  {
    var start := [Acquire, Swap];
    var s := Exec(INITIAL, start);
    assert start[1..] == [Swap];
    assert s == Exec(Do(INITIAL, Acquire), [Swap]) == Do(Do(INITIAL, Acquire), Swap);
    Reachable(start);
    var doomed := LateAcquire(s, 0, 1, 0);
    var tail := ThenCloseRuns(s, doomed, 0);
    ExecConcat(INITIAL, start, tail);
    schedule := start + tail;
  }
}
