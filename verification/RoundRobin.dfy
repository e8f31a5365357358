/** routers/round_robin.go: the ticket counters behind round-robin choice, one step per operation on
    the shared map or a counter, for any number of racing callers. */
module RoundRobin {

  const WORD: nat := 0x1_0000_0000_0000_0000   // counters are unsigned 64-bit words

  type CounterId = nat

  /** Where one call of nextIndex stands. */
  datatype Pc =
    | Looking                    // about to load the model's counter
    | Missed(own: CounterId)     // found none, made one, about to load or store it
    | Have(counter: CounterId)   // about to take a ticket
    | Chosen(index: nat)

  datatype Call = Call(model: string, count: nat, pc: Pc)

  /** A ticket taken: for which model, among how many, and the index it gave. */
  datatype Pick = Pick(model: string, count: nat, index: nat)

  datatype State = State(counters: map<string, CounterId>, values: seq<nat>, calls: seq<Call>, picks: seq<Pick>)

  const INITIAL := State(map[], [], [], [])

  datatype Action = Begin(model: string, count: nat) | Step(t: nat)

  function Do(s: State, a: Action): State {
    match a
    case Begin(model, count) => if count == 0 then s else s.(calls := s.calls + [Call(model, count, Looking)])
    case Step(t) => if t < |s.calls| then Advance(s, t) else s
  }

  function SetPc(s: State, t: nat, pc: Pc): State
    requires t < |s.calls|
  {
    s.(calls := s.calls[t := s.calls[t].(pc := pc)])
  }

  function Advance(s: State, t: nat): State
    requires t < |s.calls|
  {
    var c := s.calls[t];
    match c.pc
    case Looking =>
      if c.model in s.counters then SetPc(s, t, Have(s.counters[c.model]))
      else SetPc(s.(values := s.values + [0]), t, Missed(|s.values|))
    case Missed(own) =>
      if c.model in s.counters then SetPc(s, t, Have(s.counters[c.model]))
      else SetPc(s.(counters := s.counters[c.model := own]), t, Have(own))
    case Have(id) =>
      if id >= |s.values| || c.count == 0 then s
      else
        var ticket := s.values[id];
        var index := ticket % c.count;
        SetPc(s.(values := s.values[id := (ticket + 1) % WORD], picks := s.picks + [Pick(c.model, c.count, index)]), t,
              Chosen(index))
    case Chosen(_) => s
  }

  function Exec(s: State, schedule: seq<Action>): State
    decreases |schedule|
  {
    if schedule == [] then s else Exec(Do(s, schedule[0]), schedule[1..])
  }

  // ---------------------------------------------------------------- what every step keeps

  /** Tickets taken for a model. */
  function Taken(picks: seq<Pick>, model: string): nat {
    if picks == [] then 0
    else Taken(picks[..|picks| - 1], model) + if picks[|picks| - 1].model == model then 1 else 0
  }

  /** Pick `i` used the number of earlier picks for its model as its ticket. */
  ghost predicate InTurnAt(picks: seq<Pick>, i: nat)
    requires i < |picks|
  {
    picks[i].count > 0 && picks[i].index == Taken(picks[..i], picks[i].model) % WORD % picks[i].count
  }

  ghost predicate InTurn(picks: seq<Pick>) {
    forall i :: 0 <= i < |picks| ==> InTurnAt(picks, i)
  }

  ghost predicate GoodCall(s: State, t: nat)
    requires t < |s.calls|
  {
    var c := s.calls[t];
    && c.count > 0
    && (c.pc.Have? ==> c.model in s.counters && s.counters[c.model] == c.pc.counter)
    && (c.pc.Missed? ==> c.pc.own < |s.values| && s.values[c.pc.own] == 0 && c.pc.own !in s.counters.Values)
  }

  /** Nobody else is about to publish the same new counter. */
  ghost predicate OwnCounter(s: State, t: nat)
    requires t < |s.calls|
  {
    forall u :: 0 <= u < |s.calls| && u != t && s.calls[u].pc.Missed? && s.calls[t].pc.Missed?
      ==> s.calls[u].pc.own != s.calls[t].pc.own
  }

  ghost predicate GoodCounter(s: State, model: string)
    requires model in s.counters
  {
    && s.counters[model] < |s.values|
    && s.values[s.counters[model]] == Taken(s.picks, model) % WORD
    && forall other <- s.counters :: other != model ==> s.counters[other] != s.counters[model]
  }

  ghost predicate Inv(s: State) {
    && (forall t :: 0 <= t < |s.calls| ==> GoodCall(s, t) && OwnCounter(s, t))
    && (forall model <- s.counters :: GoodCounter(s, model))
    && (forall p <- s.picks :: p.model in s.counters)
    && InTurn(s.picks)
  }

  lemma {:induction false} NoneTaken(picks: seq<Pick>, model: string)
    requires forall p <- picks :: p.model != model
    ensures Taken(picks, model) == 0
  {
    if picks != [] {
      NoneTaken(picks[..|picks| - 1], model);
    }
  }

  lemma BeginKeeps(s: State, model: string, count: nat)
    requires Inv(s)
    ensures Inv(Do(s, Begin(model, count)))
  {
    var s' := Do(s, Begin(model, count));
    forall t | 0 <= t < |s'.calls|
      ensures GoodCall(s', t) && OwnCounter(s', t)
    {
      assert t < |s.calls| ==> GoodCall(s, t) && OwnCounter(s, t);
    }
    forall m | m in s'.counters
      ensures GoodCounter(s', m)
    {
      assert GoodCounter(s, m);
    }
  }

  lemma LookKeeps(s: State, t: nat)
    requires Inv(s) && t < |s.calls| && s.calls[t].pc.Looking?
    ensures Inv(Advance(s, t))
  {
    var s' := Advance(s, t);
    forall m | m in s'.counters
      ensures GoodCounter(s', m)
    {
      assert GoodCounter(s, m);
    }
    assert GoodCall(s, t);
    forall u | 0 <= u < |s'.calls|
      ensures GoodCall(s', u) && OwnCounter(s', u)
    {
      assert GoodCall(s, u) && OwnCounter(s, u);
      if s.calls[t].model !in s.counters {
        FreshId(s);
      }
    }
  }

  /** A counter just made is in nobody's hands. */
  lemma FreshId(s: State)
    requires Inv(s)
    ensures |s.values| !in s.counters.Values
    ensures forall u :: 0 <= u < |s.calls| && s.calls[u].pc.Missed? ==> s.calls[u].pc.own != |s.values|
  {
    forall m | m in s.counters
      ensures s.counters[m] < |s.values|
    {
      assert GoodCounter(s, m);
    }
    forall u | 0 <= u < |s.calls| && s.calls[u].pc.Missed?
      ensures s.calls[u].pc.own != |s.values|
    {
      assert GoodCall(s, u);
    }
  }

  lemma PublishKeeps(s: State, t: nat)
    requires Inv(s) && t < |s.calls| && s.calls[t].pc.Missed?
    ensures Inv(Advance(s, t))
  {
    var s' := Advance(s, t);
    var c := s.calls[t];
    assert GoodCall(s, t) && OwnCounter(s, t);
    forall m | m in s'.counters
      ensures GoodCounter(s', m)
    {
      if m in s.counters {
        assert GoodCounter(s, m);
        assert s.counters[m] in s.counters.Values;
      } else {
        NoneTaken(s.picks, m);
        forall other | other in s.counters
          ensures s.counters[other] != c.pc.own
        {
          assert s.counters[other] in s.counters.Values;
        }
      }
    }
    forall u | 0 <= u < |s'.calls|
      ensures GoodCall(s', u) && OwnCounter(s', u)
    {
      assert GoodCall(s, u) && OwnCounter(s, u);
      assert s'.counters.Values <= s.counters.Values + {c.pc.own};
    }
  }

  lemma WrapStep(k: nat)
    ensures (k % WORD + 1) % WORD == (k + 1) % WORD
  {
  }

  lemma TakenSnoc(picks: seq<Pick>, p: Pick, model: string)
    ensures Taken(picks + [p], model) == Taken(picks, model) + if p.model == model then 1 else 0
  {
    assert (picks + [p])[..|picks|] == picks;
  }

  lemma TurnSnoc(picks: seq<Pick>, p: Pick)
    requires InTurn(picks) && p.count > 0 && p.index == Taken(picks, p.model) % WORD % p.count
    ensures InTurn(picks + [p])
  {
    var more := picks + [p];
    assert more[..|picks|] == picks;
    forall i | 0 <= i < |more|
      ensures InTurnAt(more, i)
    {
      if i < |picks| {
        assert more[..i] == picks[..i];
        assert InTurnAt(picks, i);
      }
    }
  }

  lemma TakeKeepsCounter(s: State, t: nat, m: string)
    requires Inv(s) && t < |s.calls| && s.calls[t].pc.Have? && m in s.counters
    ensures GoodCounter(Advance(s, t), m)
  {
    var c := s.calls[t];
    assert GoodCall(s, t) && GoodCounter(s, c.model) && GoodCounter(s, m);
    TakenSnoc(s.picks, Advance(s, t).picks[|s.picks|], m);
    WrapStep(Taken(s.picks, m));
  }

  lemma TakeKeeps(s: State, t: nat)
    requires Inv(s) && t < |s.calls| && s.calls[t].pc.Have?
    ensures Inv(Advance(s, t))
  {
    var s' := Advance(s, t);
    var c := s.calls[t];
    assert GoodCall(s, t) && GoodCounter(s, c.model);
    TurnSnoc(s.picks, s'.picks[|s.picks|]);
    forall m | m in s'.counters {
      TakeKeepsCounter(s, t, m);
    }
    forall u | 0 <= u < |s'.calls|
      ensures GoodCall(s', u) && OwnCounter(s', u)
    {
      assert GoodCall(s, u) && OwnCounter(s, u);
      assert s.counters[c.model] in s.counters.Values;
    }
  }

  lemma DoKeeps(s: State, a: Action)
    requires Inv(s)
    ensures Inv(Do(s, a))
  {
    match a {
      case Begin(model, count) => BeginKeeps(s, model, count);
      case Step(t) =>
        if t < |s.calls| {
          match s.calls[t].pc {
            case Looking => LookKeeps(s, t);
            case Missed(_) => PublishKeeps(s, t);
            case Have(_) => TakeKeeps(s, t);
            case Chosen(_) =>
          }
        }
    }
  }

  lemma {:induction false} RunKeeps(s: State, schedule: seq<Action>)
    requires Inv(s)
    ensures Inv(Exec(s, schedule))
    decreases |schedule|
  {
    if schedule != [] {
      DoKeeps(s, schedule[0]);
      RunKeeps(Do(s, schedule[0]), schedule[1..]);
    }
  }

  // ---------------------------------------------------------------- fairness

  /** How often index `j` was given out for a model. */
  function Given(picks: seq<Pick>, model: string, j: nat): nat {
    if picks == [] then 0
    else
      var last := picks[|picks| - 1];
      Given(picks[..|picks| - 1], model, j) + if last.model == model && last.index == j then 1 else 0
  }

  /** The fair share of `j` in `m` turns among `n`. */
  function Share(m: nat, n: nat, j: nat): nat
    requires n > 0
  {
    m / n + if j < m % n then 1 else 0
  }

  lemma DivModUnique(x: nat, n: nat, q: nat, r: nat)
    requires n > 0 && r < n && x == q * n + r
    ensures x / n == q && x % n == r
  {
    var d := x / n - q;
    assert x == (x / n) * n + x % n;
    assert d * n == r - x % n by {
      assert (x / n) * n == (q + d) * n == q * n + d * n;
    }
    MultipleOutside(d, n);
  }

  lemma {:induction false} MultipleOutside(d: int, n: nat)
    requires n > 0
    ensures d > 0 ==> d * n >= n
    ensures d < 0 ==> d * n <= -(n as int)
    decreases if d < 0 then -d else d
  {
    if d > 1 {
      MultipleOutside(d - 1, n);
      assert d * n == (d - 1) * n + n;
    } else if d < -1 {
      MultipleOutside(d + 1, n);
      assert d * n == (d + 1) * n - n;
    }
  }

  lemma NextShare(m: nat, n: nat, j: nat)
    requires n > 0 && j < n
    ensures Share(m + 1, n, j) == Share(m, n, j) + if m % n == j then 1 else 0
  {
    var q, r := m / n, m % n;
    if r + 1 < n {
      DivModUnique(m + 1, n, q, r + 1);
    } else {
      assert m + 1 == (q + 1) * n + 0;
      DivModUnique(m + 1, n, q + 1, 0);
    }
  }

  lemma {:induction false} InTurnIsFair(picks: seq<Pick>, model: string, n: nat, j: nat)
    requires InTurn(picks) && 0 < n && j < n && Taken(picks, model) <= WORD
    requires forall p <- picks :: p.model == model ==> p.count == n
    ensures Given(picks, model, j) == Share(Taken(picks, model), n, j)
  {
    if picks != [] {
      var front, last := picks[..|picks| - 1], picks[|picks| - 1];
      FrontInTurn(picks);
      InTurnIsFair(front, model, n, j);
      assert last in picks;
      if last.model == model {
        LastTicket(picks, n);
        NextShare(Taken(front, model), n, j);
      }
    }
  }

  lemma FrontInTurn(picks: seq<Pick>)
    requires InTurn(picks) && picks != []
    ensures InTurn(picks[..|picks| - 1])
  {
    var front := picks[..|picks| - 1];
    forall i | 0 <= i < |front|
      ensures InTurnAt(front, i)
    {
      assert front[..i] == picks[..i];
      assert InTurnAt(picks, i);
    }
  }

  lemma LastTicket(picks: seq<Pick>, n: nat)
    requires InTurn(picks) && picks != [] && n > 0
    requires var last := picks[|picks| - 1]; last.count == n && Taken(picks, last.model) <= WORD
    ensures var last := picks[|picks| - 1]; last.index == Taken(picks[..|picks| - 1], last.model) % n
  {
    assert InTurnAt(picks, |picks| - 1);
    SmallWord(Taken(picks[..|picks| - 1], picks[|picks| - 1].model));
  }

  lemma SmallWord(k: nat)
    ensures k < WORD ==> k % WORD == k
  {
  }

  /** All calls that hold a counter for a model hold the one that is published. */
  ghost predicate SharesCounter(s: State, model: string) {
    forall t :: 0 <= t < |s.calls| && s.calls[t].model == model && s.calls[t].pc.Have?
      ==> model in s.counters && s.calls[t].pc.counter == s.counters[model]
  }

  lemma RacersShareCounter(s: State, model: string)
    requires Inv(s)
    ensures SharesCounter(s, model)
    ensures Taken(s.picks, model) > 0 ==>
      && model in s.counters && s.counters[model] < |s.values|
      && s.values[s.counters[model]] == Taken(s.picks, model) % WORD
  {
    forall t | 0 <= t < |s.calls| && s.calls[t].model == model && s.calls[t].pc.Have?
      ensures model in s.counters && s.calls[t].pc.counter == s.counters[model]
    {
      assert GoodCall(s, t);
    }
    if model in s.counters {
      assert GoodCounter(s, model);
    } else {
      NoneTaken(s.picks, model);
    }
  }

  /** How often deployment `d` of the list `healthy` was returned for a model. */
  function Served(picks: seq<Pick>, model: string, healthy: seq<string>, d: string): nat {
    if picks == [] then 0
    else
      var last := picks[|picks| - 1];
      Served(picks[..|picks| - 1], model, healthy, d)
      + if last.model == model && last.index < |healthy| && healthy[last.index] == d then 1 else 0
  }

  ghost predicate Distinct(healthy: seq<string>) {
    forall i, j :: 0 <= i < j < |healthy| ==> healthy[i] != healthy[j]
  }

  lemma {:induction false} ServedIsGiven(picks: seq<Pick>, model: string, healthy: seq<string>, j: nat)
    requires j < |healthy| && Distinct(healthy)
    ensures Served(picks, model, healthy, healthy[j]) == Given(picks, model, j)
  {
    if picks != [] {
      ServedIsGiven(picks[..|picks| - 1], model, healthy, j);
    }
  }

  /** Every deployment has the floor or the ceiling of an equal share. */
  lemma ShareIsEven(m: nat, n: nat, j: nat)
    requires j < n
    ensures Share(m, n, j) == m / n || (Share(m, n, j) == m / n + 1 && m % n != 0)
  {
  }

  /** All callers choose from `healthy`, and no more tickets were taken than the counter can tell apart. */
  ghost predicate OneList(picks: seq<Pick>, model: string, healthy: seq<string>) {
    && healthy != [] && Distinct(healthy) && Taken(picks, model) <= WORD
    && forall p <- picks :: p.model == model ==> p.count == |healthy|
  }

  /** For every schedule of racing callers: all tickets of a model come from one counter, which holds
      the number taken; and as long as at most 2^64 tickets are taken and all callers choose from one list
      of deployments, each of them was returned the floor or the ceiling of an equal share. */
  lemma FairUnderRaces(schedule: seq<Action>, model: string, healthy: seq<string>, d: string)
    requires d in healthy
    ensures var s := Exec(INITIAL, schedule);
      var m := Taken(s.picks, model);
      && SharesCounter(s, model)
      && (OneList(s.picks, model, healthy) ==>
            var served := Served(s.picks, model, healthy, d);
            served == m / |healthy| || (served == m / |healthy| + 1 && m % |healthy| != 0))
  {
    assert Inv(INITIAL);
    RunKeeps(INITIAL, schedule);
    RacersShareCounter(Exec(INITIAL, schedule), model);
    if OneList(Exec(INITIAL, schedule).picks, model, healthy) {
      FairPicks(Exec(INITIAL, schedule), model, healthy, d);
    }
  }

  lemma FairPicks(s: State, model: string, healthy: seq<string>, d: string)
    requires Inv(s) && d in healthy && OneList(s.picks, model, healthy)
    ensures var m, served := Taken(s.picks, model), Served(s.picks, model, healthy, d);
      served == m / |healthy| || (served == m / |healthy| + 1 && m % |healthy| != 0)
  {
    var j :| 0 <= j < |healthy| && healthy[j] == d;
    ServedIsGiven(s.picks, model, healthy, j);
    InTurnIsFair(s.picks, model, |healthy|, j);
    ShareIsEven(Taken(s.picks, model), |healthy|, j);
  }

  // ---------------------------------------------------------------- one call at a time

  /** A whole call of nextIndex that nobody interrupts. */
  function NextIndex(s: State, model: string, count: nat): State {
    var t := |s.calls|;
    Do(Do(Do(Do(s, Begin(model, count)), Step(t)), Step(t)), Step(t))
  }

  lemma NextIndexKeeps(s: State, model: string, count: nat)
    requires Inv(s)
    ensures Inv(NextIndex(s, model, count))
  {
    var t := |s.calls|;
    var s1 := Do(s, Begin(model, count));
    var s2 := Do(s1, Step(t));
    var s3 := Do(s2, Step(t));
    DoKeeps(s, Begin(model, count));
    DoKeeps(s1, Step(t));
    DoKeeps(s2, Step(t));
    DoKeeps(s3, Step(t));
  }

  /** The counter a call starts from stands at the number of tickets taken. */
  lemma TicketsSoFar(s: State, model: string)
    requires Inv(s)
    ensures if model in s.counters
      then s.counters[model] < |s.values| && s.values[s.counters[model]] == Taken(s.picks, model) % WORD
      else Taken(s.picks, model) == 0
  {
    if model in s.counters {
      assert GoodCounter(s, model);
    } else {
      NoneTaken(s.picks, model);
    }
  }

  lemma NextIndexPicks(s: State, model: string, count: nat, ticket: nat)
    requires count > 0
    requires if model in s.counters
      then s.counters[model] < |s.values| && s.values[s.counters[model]] == ticket else ticket == 0
    ensures NextIndex(s, model, count).picks == s.picks + [Pick(model, count, ticket % count)]
  {
    var t := |s.calls|;
    var s1 := Do(s, Begin(model, count));
    var s2 := Do(s1, Step(t));
    if model in s.counters {
      assert s2.calls[t].pc == Have(s.counters[model]);
    } else {
      assert Do(s2, Step(t)).calls[t].pc == Have(|s.values|);
    }
  }

  /** The ticket of a call is the number of tickets taken before. */
  lemma NextIndexTakes(s: State, model: string, count: nat)
    requires Inv(s) && count > 0
    ensures var z := NextIndex(s, model, count);
      Inv(z) && z.picks == s.picks + [Pick(model, count, Taken(s.picks, model) % WORD % count)]
  {
    NextIndexKeeps(s, model, count);
    TicketsSoFar(s, model);
    NextIndexPicks(s, model, count, Taken(s.picks, model) % WORD);
  }
}
