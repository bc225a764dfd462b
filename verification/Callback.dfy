/** The asynchronous random-number requests: a requester that sends ten requests and polls for their
    results, and a callback that records results as the driver hands them out. Every read and write of
    the shared records is a step of its own, and the steps of the two interleave in any way. */
module Callback {
  import opened Octets

  const RESULTS: nat := 10
  const RAND: nat := 24
  const LIMIT: nat := 400000

  type RandomData = d: seq<Octet> | |d| == RAND witness seq(RAND, i => Zeros(8))

  // A status other than ok has a code.
  datatype Status = Ok | Bad(code: int)

  datatype Test = Test(initiated: bool, received: bool, result: Status, randomOk: bool, unexpected: bool, testno: nat,
                       random: RandomData)

  // What the driver hands to the callback refers to a record, to nothing, or to something else.
  datatype Reference = Ref(i: nat) | NullRef | WildRef

  datatype Result = Result(reference: Reference, status: Status)

  // Where the requester is.
  datatype Pc =
    | Mark(i: nat)
    | Submit(i: nat)
    | Counting(i: nat)
    | Undo(i: nat)
    | Poll(rounds: nat, i: nat, found: nat)
    | Decide(rounds: nat, found: nat)
    | Check(i: nat)
    | CheckReceived(i: nat)
    | CheckResult(i: nat)
    | CheckRandom(i: nat)
    | Finished

  // Where the callback is with the first of its results.
  datatype Stage = AtInitiated | AtReceived | AtResult | AtRandom | AtMark

  datatype Process = Idle | Handling(results: seq<Result>, stage: Stage)

  // accepted, delivered and recorded are history: which requests the driver took, for which it handed
  // out a result, and in which order results were recorded.
  datatype State = State(tests: seq<Test>, pc: Pc, kicked: nat, passed: bool, broke: bool, cb: Process,
                         accepted: seq<bool>, delivered: seq<bool>, recorded: seq<nat>)

  // code is the answer of the driver to the request, if one is being made.
  datatype Event =
    | Requester(code: Status)
    | Invoke(code: Status, results: seq<Result>)
    | CallbackStep
    | DriverWrites(i: nat, data: RandomData)

  // The bytes looked at: the first six, and those at a third, at half and at the end.
  predicate LookedAt(i: nat) {
    i < 6 || i == 8 || i == 12 || i == 23
  }

  // A buffer with all of these zero was never written.
  predicate Plausible(random: RandomData) {
    exists i | 0 <= i < RAND && LookedAt(i) :: random[i] != Zeros(8)
  }

  method CheckOne(random: RandomData) returns (failed: bool)
    ensures failed <==> !Plausible(random)
  {
    if random[0] == Zeros(8) && random[1] == Zeros(8) && random[2] == Zeros(8) && random[3] == Zeros(8)
       && random[4] == Zeros(8) && random[5] == Zeros(8) && random[RAND / 3] == Zeros(8)
       && random[RAND / 2] == Zeros(8) && random[RAND - 1] == Zeros(8)
    {
      failed := true;
    } else {
      assert LookedAt(0) && LookedAt(1) && LookedAt(2) && LookedAt(3) && LookedAt(4) && LookedAt(5);
      assert LookedAt(8) && LookedAt(12) && LookedAt(23);
      failed := false;
    }
  }

  function Cleared(t: Test, i: nat): Test {
    t.(initiated := false, received := false, testno := i, randomOk := false, unexpected := false,
       random := seq(RAND, j => Zeros(8)))
  }

  // Everything but the result code is reset.
  method ClearTestData(tests: array<Test>)
    modifies tests
    ensures forall i | 0 <= i < tests.Length :: tests[i] == Cleared(old(tests[i]), i)
  {
    for i := 0 to tests.Length
      invariant forall j | 0 <= j < i :: tests[j] == Cleared(old(tests[j]), j)
      invariant forall j | i <= j < tests.Length :: tests[j] == old(tests[j])
    {
      tests[i] := Cleared(tests[i], i);
    }
  }

  predicate Starts(s: State) {
    |s.tests| == |s.accepted| == |s.delivered| == RESULTS
    && (forall i | 0 <= i < RESULTS :: s.tests[i] == Cleared(s.tests[i], i) && !s.accepted[i] && !s.delivered[i])
    && s.pc == Mark(0) && s.kicked == 0 && s.passed && !s.broke && s.cb.Idle? && s.recorded == []
  }

  /** ---- Steps ---- */

  function NextRequest(i: nat): Pc {
    if i + 1 < RESULTS then Mark(i + 1) else Poll(1, 0, 0)
  }

  function NextPoll(rounds: nat, i: nat, found: nat): Pc {
    if i + 1 < RESULTS then Poll(rounds, i + 1, found) else Decide(rounds, found)
  }

  function NextCheck(i: nat): Pc {
    if i + 1 < RESULTS then Check(i + 1) else Finished
  }

  function RequesterStep(s: State, code: Status): State
    requires Shape(s) && !s.pc.Finished?
  {
    match s.pc
    case Mark(i) => s.(tests := s.tests[i := s.tests[i].(initiated := true)], pc := Submit(i))
    case Submit(i) => if code.Ok? then s.(accepted := s.accepted[i := true], pc := Counting(i)) else s.(pc := Undo(i))
    case Counting(i) => s.(kicked := s.kicked + 1, pc := NextRequest(i))
    case Undo(i) =>
      s.(passed := false, tests := s.tests[i := s.tests[i].(initiated := false)], pc := NextRequest(i))
    case Poll(rounds, i, found) => s.(pc := NextPoll(rounds, i, if s.tests[i].received then found + 1 else found))
    case Decide(rounds, found) =>
      if found >= s.kicked then s.(broke := true, pc := Check(0))
      else s.(pc := if rounds + 1 < LIMIT then Poll(rounds + 1, 0, 0) else Check(0))
    case Check(i) => s.(pc := if s.tests[i].initiated then CheckReceived(i) else NextCheck(i))
    case CheckReceived(i) =>
      if s.tests[i].received then s.(pc := CheckResult(i)) else s.(passed := false, pc := NextCheck(i))
    case CheckResult(i) => s.(pc := if s.tests[i].result.Ok? then CheckRandom(i) else NextCheck(i))
    case CheckRandom(i) => s.(passed := s.passed && s.tests[i].randomOk, pc := NextCheck(i))
  }

  function NextResult(results: seq<Result>): Process
    requires results != []
  {
    if |results| == 1 then Idle else Handling(results[1..], AtInitiated)
  }

  function CallbackStepOf(s: State): State
    requires Shape(s) && s.cb.Handling?
  {
    var results := s.cb.results;
    var r := results[0];
    if !r.reference.Ref? then s.(cb := NextResult(results)) else
    var i := r.reference.i;
    var t := s.tests[i];
    match s.cb.stage
    case AtInitiated =>
      if t.initiated then s.(cb := Handling(results, AtReceived))
      else s.(tests := s.tests[i := t.(unexpected := true)], cb := NextResult(results))
    case AtReceived =>
      if !t.received then s.(cb := Handling(results, AtResult))
      else s.(tests := s.tests[i := t.(unexpected := true)], cb := NextResult(results))
    case AtResult => s.(tests := s.tests[i := t.(result := r.status)], cb := Handling(results, AtRandom))
    case AtRandom =>
      s.(tests := s.tests[i := t.(randomOk := t.randomOk || (t.result.Ok? && Plausible(t.random)))],
         cb := Handling(results, AtMark))
    case AtMark =>
      s.(tests := s.tests[i := t.(received := true)], recorded := s.recorded + [i], cb := NextResult(results))
  }

  function Deliver(delivered: seq<bool>, results: seq<Result>): (r: seq<bool>)
    ensures |r| == |delivered|
  {
    seq(|delivered|, i requires 0 <= i < |delivered| => delivered[i] || exists r <- results :: r.reference == Ref(i))
  }

  // The driver hands out results of accepted requests only; it may hand one out twice, or refer to
  // nothing sensible. It writes random data only until it has handed out the result.
  predicate Enabled(s: State, e: Event) {
    Shape(s) &&
    match e
    case Requester(code) => !s.pc.Finished?
    case CallbackStep => s.cb.Handling?
    case Invoke(code, results) =>
      s.cb.Idle? && |results| <= RESULTS
      && forall r <- results :: r.reference.Ref? ==> r.reference.i < RESULTS && s.accepted[r.reference.i]
    case DriverWrites(i, data) => i < RESULTS && s.accepted[i] && !s.delivered[i]
  }

  function Apply(s: State, e: Event): State
    requires Enabled(s, e)
  {
    match e
    case Requester(code) => RequesterStep(s, code)
    case CallbackStep => CallbackStepOf(s)
    case Invoke(code, results) =>
      if !code.Ok? || results == [] then s
      else s.(cb := Handling(results, AtInitiated), delivered := Deliver(s.delivered, results))
    case DriverWrites(i, data) => s.(tests := s.tests[i := s.tests[i].(random := data)])
  }

  // All steps of a run can be taken.
  predicate CanRun(s: State, events: seq<Event>)
    decreases |events|
  {
    events != [] ==> Enabled(s, events[0]) && CanRun(Apply(s, events[0]), events[1..])
  }

  function Run(s: State, events: seq<Event>): State
    requires CanRun(s, events)
    decreases |events|
  {
    if events == [] then s else Run(Apply(s, events[0]), events[1..])
  }

  /** ---- The callback without interruption ---- */

  // What one result does to its record.
  function Handled(t: Test, status: Status): Test {
    if !t.initiated || t.received then t.(unexpected := true)
    else t.(result := status, randomOk := t.randomOk || (status.Ok? && Plausible(t.random)), received := true)
  }

  function HandledAll(tests: seq<Test>, results: seq<Result>): (r: seq<Test>)
    requires forall x <- results :: x.reference.Ref? ==> x.reference.i < |tests|
    ensures |r| == |tests|
    decreases |results|
  {
    if results == [] then tests else
      var x := results[0];
      var t := if x.reference.Ref? then tests[x.reference.i := Handled(tests[x.reference.i], x.status)] else tests;
      HandledAll(t, results[1..])
  }

  // The callback as it is written: one pass over the results it was given.
  method TestCallback(tests: array<Test>, code: Status, results: seq<Result>)
    requires forall x <- results :: x.reference.Ref? ==> x.reference.i < tests.Length
    modifies tests
    ensures tests[..] == if code.Ok? then HandledAll(old(tests[..]), results) else old(tests[..])
  {
    hide Plausible;
    if !code.Ok? { return; }
    for k := 0 to |results|
      invariant HandledAll(tests[..], results[k..]) == HandledAll(old(tests[..]), results)
    {
      assert results[k..][0] == results[k] && results[k..][1..] == results[k + 1..];
      match results[k].reference
      case NullRef =>
      case WildRef =>
      case Ref(i) =>
        ghost var before := tests[..];
        if !tests[i].initiated {
          tests[i] := tests[i].(unexpected := true);
        } else if tests[i].received {
          tests[i] := tests[i].(unexpected := true);
        } else {
          tests[i] := tests[i].(result := results[k].status);
          if tests[i].result.Ok? {
            var failed := CheckOne(tests[i].random);
            if !failed { tests[i] := tests[i].(randomOk := true); }
          }
          tests[i] := tests[i].(received := true);
        }
        assert tests[..] == before[i := Handled(before[i], results[k].status)];
    }
  }

  // Run by itself from the first result on, the callback takes a number of steps and does just that.
  lemma {:induction false} CallbackAlone(s: State) returns (events: seq<Event>)
    requires Shape(s) && s.cb.Handling? && s.cb.stage.AtInitiated?
    ensures (forall e <- events :: e.CallbackStep?) && CanRun(s, events)
    ensures var t := Run(s, events);
            t.tests == HandledAll(s.tests, s.cb.results)
            && t == s.(tests := t.tests, cb := Idle, recorded := t.recorded)
    decreases |s.cb.results|
  {
    var results := s.cb.results;
    hide HandledAll, CallbackStepOf, Shape;
    var first, t := OneResultAlone(s);
    HandledStep(s.tests, results);
    if t.cb.Idle? {
      events := first;
      HandledNone(t.tests);
    } else {
      var more := CallbackAlone(t);
      events := first + more;
      RunJoin(s, first, more);
    }
  }

  lemma HandledNone(tests: seq<Test>)
    ensures HandledAll(tests, []) == tests
  {}

  lemma HandledStep(tests: seq<Test>, results: seq<Result>)
    requires results != [] && forall x <- results :: x.reference.Ref? ==> x.reference.i < |tests|
    ensures HandledAll(tests, results) == HandledAll(HandledFirst(tests, results[0]), results[1..])
  {}

  function HandledFirst(tests: seq<Test>, x: Result): (r: seq<Test>)
    requires x.reference.Ref? ==> x.reference.i < |tests|
    ensures |r| == |tests|
  {
    if x.reference.Ref? then tests[x.reference.i := Handled(tests[x.reference.i], x.status)] else tests
  }

  lemma {:induction false} RunJoin(s: State, a: seq<Event>, b: seq<Event>)
    requires CanRun(s, a) && CanRun(Run(s, a), b)
    ensures CanRun(s, a + b) && Run(s, a + b) == Run(Run(s, a), b)
    decreases |a|
  {
    hide Apply, Enabled;
    if a == [] {
      assert a + b == b;
    } else {
      assert (a + b)[0] == a[0] && (a + b)[1..] == a[1..] + b;
      RunJoin(Apply(s, a[0]), a[1..], b);
    }
  }

  // The steps for one result: one for a bad reference, two or three for an unexpected one, five else.
  lemma OneResultAlone(s: State) returns (events: seq<Event>, t: State)
    requires Shape(s) && s.cb.Handling? && s.cb.stage.AtInitiated?
    ensures (forall e <- events :: e.CallbackStep?) && CanRun(s, events) && t == Run(s, events)
    ensures t == s.(tests := HandledFirst(s.tests, s.cb.results[0]), cb := NextResult(s.cb.results), recorded := t.recorded)
    ensures Shape(t)
  {
    hide Run, CanRun, CallbackStepOf;
    RunNothing(s);
    events, t := OneMore(s, [], s);
    LookStep(s);
    if t.cb.Idle? || t.cb.stage.AtInitiated? { return; }
    events, t := OneMore(s, events, t);
    LookAgainStep(s);
    if t.cb.Idle? || t.cb.stage.AtInitiated? { return; }
    WriteSteps(s);
    events, t := OneMore(s, events, t);
    events, t := OneMore(s, events, t);
    events, t := OneMore(s, events, t);
  }

  lemma RunNothing(s: State)
    ensures CanRun(s, []) && Run(s, []) == s
  {}

  // The result of one step at the first look at a record.
  lemma LookStep(s: State)
    requires Shape(s) && s.cb.Handling? && s.cb.stage.AtInitiated?
    ensures var t, x := CallbackStepOf(s), s.cb.results[0];
            Shape(t) && if x.reference.Ref? && s.tests[x.reference.i].initiated
                        then t == s.(cb := Handling(s.cb.results, AtReceived))
                        else t == s.(cb := NextResult(s.cb.results), tests := HandledFirst(s.tests, x))
  {}

  lemma LookAgainStep(s: State)
    requires Shape(s) && s.cb.Handling? && s.cb.stage.AtInitiated?
    ensures var u, x := s.(cb := Handling(s.cb.results, AtReceived)), s.cb.results[0];
            x.reference.Ref? && s.tests[x.reference.i].initiated ==>
              var t := CallbackStepOf(u);
              Shape(t) && if !s.tests[x.reference.i].received then t == s.(cb := Handling(s.cb.results, AtResult))
                          else t == s.(cb := NextResult(s.cb.results), tests := HandledFirst(s.tests, x))
  {}

  // The three writes.
  lemma WriteSteps(s: State)
    requires Shape(s) && s.cb.Handling?
    ensures var u, x := s.(cb := Handling(s.cb.results, AtResult)), s.cb.results[0];
            x.reference.Ref? && s.tests[x.reference.i].initiated && !s.tests[x.reference.i].received ==>
              var t1 := CallbackStepOf(u);
              Shape(t1) && t1.cb.Handling? && var t2 := CallbackStepOf(t1);
              Shape(t2) && t2.cb.Handling? && var t := CallbackStepOf(t2);
              Shape(t) && t == s.(cb := NextResult(s.cb.results), tests := HandledFirst(s.tests, x), recorded := t.recorded)
  {
    hide Plausible;
  }

  lemma OneMore(s: State, events: seq<Event>, t: State) returns (events': seq<Event>, t': State)
    requires CanRun(s, events) && Run(s, events) == t && Shape(t) && t.cb.Handling?
    requires forall e <- events :: e.CallbackStep?
    ensures (forall e <- events' :: e.CallbackStep?) && CanRun(s, events') && Run(s, events') == t' == CallbackStepOf(t)
  {
    hide CallbackStepOf;
    events' := events + [CallbackStep];
    assert [CallbackStep][1..] == [];
    assert CanRun(t, [CallbackStep]) && Run(t, [CallbackStep]) == CallbackStepOf(t);
    RunJoin(s, events, [CallbackStep]);
    t' := CallbackStepOf(t);
  }

  /** ---- What every step keeps ---- */

  predicate PcInRange(pc: Pc) {
    !pc.Decide? && !pc.Finished? ==> pc.i < RESULTS
  }

  predicate Shape(s: State) {
    |s.tests| == |s.accepted| == |s.delivered| == RESULTS && PcInRange(s.pc)
    && (s.cb.Handling? ==> s.cb.results != [] && forall r <- s.cb.results :: r.reference.Ref? ==> r.reference.i < RESULTS)
  }

  predicate Requesting(pc: Pc) {
    pc.Mark? || pc.Submit? || pc.Counting? || pc.Undo?
  }

  predicate Checking(pc: Pc) {
    pc.Check? || pc.CheckReceived? || pc.CheckResult? || pc.CheckRandom? || pc.Finished?
  }

  // How many requests are settled.
  function Settled(pc: Pc): nat {
    if Requesting(pc) then pc.i else RESULTS
  }

  // How many records are checked.
  function Checked(pc: Pc): nat
    requires Checking(pc)
  {
    if pc.Finished? then RESULTS else pc.i
  }

  function Accepted(accepted: seq<bool>, n: nat): nat
    requires n <= |accepted|
  {
    if n == 0 then 0 else Accepted(accepted, n - 1) + if accepted[n - 1] then 1 else 0
  }

  function Received(tests: seq<Test>, n: nat): (r: nat)
    requires n <= |tests|
    ensures r <= n
  {
    if n == 0 then 0 else Received(tests, n - 1) + if tests[n - 1].received then 1 else 0
  }

  // A request is settled and marked as started exactly if the driver took it, or it is just being
  // counted, or it has not been taken.
  predicate RequestOk(t: Test, accepted: bool, settled: bool, counting: bool) {
    if settled then t.initiated == accepted else if counting then accepted && t.initiated else !accepted
  }

  predicate RequestsInv(s: State)
    requires Shape(s)
  {
    (forall j | 0 <= j < RESULTS :: RequestOk(s.tests[j], s.accepted[j], j < Settled(s.pc), s.pc == Counting(j)))
    && (s.pc.Submit? ==> s.tests[s.pc.i].initiated)
    && s.kicked == Accepted(s.accepted, Settled(s.pc))
  }

  // How far the callback is with recording a result in record j.
  datatype Progress = Untouched | Writing | Written

  function ProgressOf(cb: Process, j: nat): Progress
    requires cb.Handling? ==> cb.results != []
  {
    if cb.Idle? || cb.results[0].reference != Ref(j) || cb.stage.AtInitiated? || cb.stage.AtReceived? then Untouched
    else if cb.stage.AtMark? then Written
    else Writing
  }

  // A record that says what the driver delivered.
  predicate Judged(t: Test) {
    t.randomOk == (t.result.Ok? && Plausible(t.random))
  }

  // A received result was delivered for an accepted request and is judged by its data.
  predicate RecordOk(t: Test, accepted: bool, delivered: bool, progress: Progress) {
    (delivered ==> accepted)
    && (t.received ==> delivered && Judged(t) && progress.Untouched?)
    && (!t.received && t.randomOk ==> progress.Written?)
    && (progress.Written? ==> Judged(t))
  }

  predicate Distinct(q: seq<nat>) {
    forall a, b | 0 <= a < b < |q| :: q[a] != q[b]
  }

  ghost predicate RecordedInv(recorded: seq<nat>, tests: seq<Test>)
    requires |tests| == RESULTS
  {
    Distinct(recorded) && forall j :: j in recorded <==> 0 <= j < RESULTS && tests[j].received
  }

  predicate InFlight(cb: Process, delivered: seq<bool>)
    requires |delivered| == RESULTS
    requires cb.Handling? ==> forall r <- cb.results :: r.reference.Ref? ==> r.reference.i < RESULTS
  {
    cb.Handling? ==> forall r <- cb.results :: r.reference.Ref? ==> delivered[r.reference.i]
  }

  ghost predicate ResultsInv(s: State)
    requires Shape(s)
  {
    InFlight(s.cb, s.delivered) && RecordedInv(s.recorded, s.tests)
    && forall j | 0 <= j < RESULTS :: RecordOk(s.tests[j], s.accepted[j], s.delivered[j], ProgressOf(s.cb, j))
  }

  // The polling: what was found is still there.
  predicate PollInv(s: State)
    requires Shape(s)
  {
    (s.pc.Poll? ==> s.pc.found <= Received(s.tests, s.pc.i))
    && (s.pc.Decide? ==> s.pc.found <= Received(s.tests, RESULTS))
    && (s.broke ==> Checking(s.pc) && forall j | 0 <= j < RESULTS && s.accepted[j] :: s.tests[j].received)
  }

  predicate Good(t: Test) {
    t.received && (t.result.Ok? ==> t.randomOk)
  }

  // Nothing is wrong with request j as far as the requester has looked.
  predicate Fine(s: State, j: nat)
    requires Shape(s) && j < RESULTS
  {
    s.accepted[j] && (Checking(s.pc) && j < Checked(s.pc) ==> Good(s.tests[j]))
  }

  // The verdict so far.
  predicate VerdictInv(s: State)
    requires Shape(s)
  {
    (s.passed ==> forall j | 0 <= j < Settled(s.pc) :: Fine(s, j))
    && (!s.passed && (Checking(s.pc) ==> s.broke) ==> exists j | 0 <= j < Settled(s.pc) :: !Fine(s, j))
    && (s.pc.CheckResult? || s.pc.CheckRandom? ==> s.tests[s.pc.i].received)
    && (s.pc.CheckRandom? ==> s.tests[s.pc.i].result.Ok?)
    && (s.pc.CheckReceived? || s.pc.CheckResult? || s.pc.CheckRandom? ==> s.accepted[s.pc.i])
  }

  ghost predicate Inv(s: State) {
    Shape(s) && RequestsInv(s) && ResultsInv(s) && PollInv(s) && VerdictInv(s)
  }

  /** ---- Counting ---- */

  lemma {:induction false} AcceptedLocal(a: seq<bool>, b: seq<bool>, n: nat)
    requires n <= |a| == |b| && forall j | 0 <= j < n :: a[j] == b[j]
    ensures Accepted(a, n) == Accepted(b, n)
  {
    if n != 0 { AcceptedLocal(a, b, n - 1); }
  }

  lemma {:induction false} ReceivedGrows(a: seq<Test>, b: seq<Test>, n: nat)
    requires n <= |a| == |b| && forall j | 0 <= j < n && a[j].received :: b[j].received
    ensures Received(a, n) <= Received(b, n)
  {
    if n != 0 { ReceivedGrows(a, b, n - 1); }
  }

  // As many results as accepted requests, and none for another: then every accepted one has its result.
  lemma {:induction false} EnoughIsAll(tests: seq<Test>, accepted: seq<bool>, n: nat)
    requires n <= |tests| == |accepted| && forall j | 0 <= j < n && tests[j].received :: accepted[j]
    ensures Received(tests, n) <= Accepted(accepted, n)
    ensures Received(tests, n) == Accepted(accepted, n) ==> forall j | 0 <= j < n && accepted[j] :: tests[j].received
  {
    if n != 0 { EnoughIsAll(tests, accepted, n - 1); }
  }

  /** ---- Preservation ---- */

  lemma StartKeeps(s: State)
    requires Starts(s)
    ensures Inv(s)
  {}

  // The callback and the driver leave the marks of the requester and every received record alone.
  predicate Evolves(a: Test, b: Test) {
    a.initiated == b.initiated
    && (a.received ==> b.received && a.result == b.result && a.randomOk == b.randomOk && a.random == b.random)
  }

  predicate AllEvolve(a: seq<Test>, b: seq<Test>) {
    |a| == |b| && forall j | 0 <= j < |a| :: Evolves(a[j], b[j])
  }

  // So do the requester's invariants.
  lemma OthersKept(s: State, t: State)
    requires Shape(s) && Shape(t) && RequestsInv(s) && PollInv(s) && VerdictInv(s) && AllEvolve(s.tests, t.tests)
    requires s.pc == t.pc && s.kicked == t.kicked && s.passed == t.passed && s.broke == t.broke && s.accepted == t.accepted
    ensures RequestsInv(t) && PollInv(t) && VerdictInv(t)
  {
    RequestsKept(s, t);
    PollKept(s, t);
    VerdictKept(s, t);
  }

  lemma RequestsKept(s: State, t: State)
    requires Shape(s) && Shape(t) && RequestsInv(s) && AllEvolve(s.tests, t.tests)
    requires s.pc == t.pc && s.kicked == t.kicked && s.accepted == t.accepted
    ensures RequestsInv(t)
  {
    hide Accepted;
    forall j | 0 <= j < RESULTS
      ensures RequestOk(t.tests[j], t.accepted[j], j < Settled(t.pc), t.pc == Counting(j))
    {
      assert Evolves(s.tests[j], t.tests[j]);
    }
  }

  lemma PollKept(s: State, t: State)
    requires Shape(s) && Shape(t) && PollInv(s) && AllEvolve(s.tests, t.tests)
    requires s.pc == t.pc && s.broke == t.broke && s.accepted == t.accepted
    ensures PollInv(t)
  {
    assert forall j | 0 <= j < RESULTS :: Evolves(s.tests[j], t.tests[j]);
    ReceivedGrows(s.tests, t.tests, RESULTS);
    if s.pc.Poll? { ReceivedGrows(s.tests, t.tests, s.pc.i); }
  }

  lemma VerdictKept(s: State, t: State)
    requires Shape(s) && Shape(t) && VerdictInv(s) && AllEvolve(s.tests, t.tests) && PollInv(s)
    requires s.pc == t.pc && s.passed == t.passed && s.broke == t.broke && s.accepted == t.accepted
    ensures VerdictInv(t)
  {
    hide Received;
    assert forall j | 0 <= j < RESULTS :: Evolves(s.tests[j], t.tests[j]);
    forall j | 0 <= j < RESULTS && Fine(s, j)
      ensures Fine(t, j)
    {
      assert Evolves(s.tests[j], t.tests[j]);
    }
    if !s.passed && (Checking(s.pc) ==> s.broke) {
      var j :| 0 <= j < Settled(s.pc) && !Fine(s, j);
      assert Evolves(s.tests[j], t.tests[j]);
      assert !Fine(t, j);
    }
  }

  /** ---- The requester ---- */

  lemma RequesterKeeps(s: State, code: Status)
    requires Inv(s) && !s.pc.Finished?
    ensures Inv(RequesterStep(s, code))
  {
    hide RequestsInv, ResultsInv, PollInv, VerdictInv, RequesterStep;
    RequesterShape(s, code);
    RequesterRequests(s, code);
    RequesterResults(s, code);
    RequesterPoll(s, code);
    RequesterVerdict(s, code);
  }

  lemma RequesterShape(s: State, code: Status)
    requires Shape(s) && !s.pc.Finished?
    ensures Shape(RequesterStep(s, code))
  {}

  // What a step of the requester can change: one mark, and one acceptance.
  lemma RequesterTouches(s: State, code: Status)
    requires Shape(s) && !s.pc.Finished?
    ensures var t := RequesterStep(s, code);
            t.cb == s.cb && t.delivered == s.delivered && t.recorded == s.recorded
            && |t.tests| == |s.tests| && |t.accepted| == |s.accepted|
            && (forall j | 0 <= j < RESULTS :: t.tests[j] == s.tests[j].(initiated := t.tests[j].initiated))
            && (forall j | 0 <= j < RESULTS && !(Requesting(s.pc) && j == s.pc.i) ::
                  t.tests[j] == s.tests[j] && t.accepted[j] == s.accepted[j])
            && (Requesting(s.pc) && s.accepted[s.pc.i] ==> t.accepted[s.pc.i])
  {
    hide RequesterStep;
    if Requesting(s.pc) {
      RequestTouches(s, code);
    } else {
      CheckTouches(s, code);
    }
  }

  lemma CheckTouches(s: State, code: Status)
    requires Shape(s) && !Requesting(s.pc) && !s.pc.Finished?
    ensures var t := RequesterStep(s, code);
            t.cb == s.cb && t.delivered == s.delivered && t.recorded == s.recorded
            && t.tests == s.tests && t.accepted == s.accepted
  {}

  lemma RequestTouches(s: State, code: Status)
    requires Shape(s) && Requesting(s.pc)
    ensures var t, i := RequesterStep(s, code), s.pc.i;
            t.cb == s.cb && t.delivered == s.delivered && t.recorded == s.recorded
            && t.tests == s.tests[i := s.tests[i].(initiated := t.tests[i].initiated)]
            && (t.accepted == s.accepted || t.accepted == s.accepted[i := true])
  {}

  // How a step of the requester moves it.
  lemma RequesterMoves(s: State, code: Status)
    requires Shape(s) && !s.pc.Finished?
    ensures var t := RequesterStep(s, code);
            if Requesting(s.pc) then
              s.pc.i <= Settled(t.pc) <= s.pc.i + 1 && (t.pc.Counting? || t.pc.Submit? ==> t.pc.i == s.pc.i)
            else !Requesting(t.pc) && t.kicked == s.kicked
  {}

  lemma RequesterRequests(s: State, code: Status)
    requires Shape(s) && !s.pc.Finished? && RequestsInv(s) && Shape(RequesterStep(s, code))
    ensures RequestsInv(RequesterStep(s, code))
  {
    hide RequesterStep, Accepted, RequestOk;
    var t := RequesterStep(s, code);
    RequesterTouches(s, code);
    RequesterMoves(s, code);
    AcceptedLocal(s.accepted, t.accepted, Settled(s.pc));
    if Requesting(s.pc) { OneRequest(s, code, s.pc.i); }
    forall j | 0 <= j < RESULTS
      ensures RequestOk(t.tests[j], t.accepted[j], j < Settled(t.pc), t.pc == Counting(j))
    {
      assert RequestOk(s.tests[j], s.accepted[j], j < Settled(s.pc), s.pc == Counting(j));
    }
  }

  // The request being made, and the count.
  lemma OneRequest(s: State, code: Status, i: nat)
    requires Shape(s) && Requesting(s.pc) && i == s.pc.i && Shape(RequesterStep(s, code))
    requires RequestOk(s.tests[i], s.accepted[i], false, s.pc == Counting(i)) && s.kicked == Accepted(s.accepted, i)
    requires s.pc.Submit? ==> s.tests[i].initiated
    ensures var t := RequesterStep(s, code);
            RequestOk(t.tests[i], t.accepted[i], i < Settled(t.pc), t.pc == Counting(i))
            && (t.pc.Submit? ==> t.pc.i == i && t.tests[i].initiated)
            && (Accepted(t.accepted, i) == Accepted(s.accepted, i) ==> t.kicked == Accepted(t.accepted, Settled(t.pc)))
  {}

  // The requester touches neither results nor data.
  lemma RequesterResults(s: State, code: Status)
    requires Shape(s) && !s.pc.Finished? && ResultsInv(s) && Shape(RequesterStep(s, code))
    ensures ResultsInv(RequesterStep(s, code))
  {
    var t := RequesterStep(s, code);
    RequesterTouches(s, code);
    hide Plausible, ProgressOf, RequesterStep, InFlight, Distinct;
    forall j | 0 <= j < RESULTS
      ensures RecordOk(t.tests[j], t.accepted[j], t.delivered[j], ProgressOf(t.cb, j))
    {
      assert RecordOk(s.tests[j], s.accepted[j], s.delivered[j], ProgressOf(s.cb, j));
    }
  }

  lemma RequesterPoll(s: State, code: Status)
    requires Shape(s) && !s.pc.Finished? && RequestsInv(s) && ResultsInv(s) && PollInv(s) && Shape(RequesterStep(s, code))
    ensures PollInv(RequesterStep(s, code))
  {
    var t := RequesterStep(s, code);
    if s.pc.Decide? {
      ReceivedAreAccepted(s);
      hide ResultsInv, RequestOk, Received, Accepted;
      EnoughIsAll(s.tests, s.accepted, RESULTS);
    } else {
      PollStep(s, code);
    }
  }

  lemma PollStep(s: State, code: Status)
    requires Shape(s) && !s.pc.Finished? && !s.pc.Decide? && PollInv(s) && Shape(RequesterStep(s, code))
    ensures PollInv(RequesterStep(s, code))
  {
    if Requesting(s.pc) {
      hide Received;
      NoneReceived(RequesterStep(s, code).tests);
    } else {
      assert RequesterStep(s, code).tests == s.tests && RequesterStep(s, code).accepted == s.accepted;
      NoneReceived(s.tests);
    }
  }

  lemma NoneReceived(tests: seq<Test>)
    ensures Received(tests, 0) == 0
  {}

  lemma ReceivedAreAccepted(s: State)
    requires Shape(s) && ResultsInv(s)
    ensures forall j | 0 <= j < RESULTS && s.tests[j].received :: s.accepted[j]
  {
    forall j | 0 <= j < RESULTS && s.tests[j].received
      ensures s.accepted[j]
    {
      assert RecordOk(s.tests[j], s.accepted[j], s.delivered[j], ProgressOf(s.cb, j));
    }
  }

  lemma RequesterVerdict(s: State, code: Status)
    requires Shape(s) && !s.pc.Finished? && RequestsInv(s) && PollInv(s) && VerdictInv(s) && Shape(RequesterStep(s, code))
    ensures VerdictInv(RequesterStep(s, code))
  {
    if Checking(s.pc) {
      VerdictOfCheck(s, code);
    } else if Requesting(s.pc) {
      VerdictOfRequest(s, code);
    } else {
      hide Received, Accepted, RequestOk;
      var t := RequesterStep(s, code);
      assert forall j | 0 <= j < RESULTS :: Fine(t, j) == Fine(s, j);
    }
  }

  lemma VerdictOfRequest(s: State, code: Status)
    requires Shape(s) && Requesting(s.pc) && RequestsInv(s) && VerdictInv(s) && Shape(RequesterStep(s, code))
    ensures VerdictInv(RequesterStep(s, code))
  {
    hide Accepted;
    var t, i := RequesterStep(s, code), s.pc.i;
    assert RequestOk(s.tests[i], s.accepted[i], false, s.pc == Counting(i));
    assert !Checking(t.pc);
    assert forall j | 0 <= j < i :: Fine(t, j) == Fine(s, j);
    if s.pc.Undo? { assert !Fine(t, i); }
    if s.pc.Counting? { assert Fine(t, i); }
  }

  lemma VerdictOfCheck(s: State, code: Status)
    requires Shape(s) && Checking(s.pc) && !s.pc.Finished? && RequestsInv(s) && PollInv(s) && VerdictInv(s)
    requires Shape(RequesterStep(s, code))
    ensures VerdictInv(RequesterStep(s, code))
  {
    hide Accepted, Received, PollInv, RequestsInv, Plausible;
    var t, i := RequesterStep(s, code), s.pc.i;
    CheckTouches(s, code);
    CheckedRecord(s, i);
    assert forall j | 0 <= j < RESULTS && j != i :: Fine(t, j) == Fine(s, j);
    assert Fine(s, i) == s.accepted[i];
    assert Checked(t.pc) == i + 1 ==> Fine(t, i) == (s.accepted[i] && Good(s.tests[i]));
  }

  // The record being checked was settled, and after a break it is received if it was accepted.
  lemma CheckedRecord(s: State, i: nat)
    requires Shape(s) && Checking(s.pc) && !s.pc.Finished? && i == s.pc.i && RequestsInv(s) && PollInv(s)
    ensures s.tests[i].initiated == s.accepted[i] && (s.broke && s.accepted[i] ==> s.tests[i].received)
  {
    hide Accepted, Received;
    assert RequestOk(s.tests[i], s.accepted[i], true, false);
  }

  /** ---- The callback ---- */

  lemma CallbackKeeps(s: State)
    requires Inv(s) && s.cb.Handling?
    ensures Inv(CallbackStepOf(s))
  {
    hide RequestsInv, ResultsInv, PollInv, VerdictInv, CallbackStepOf;
    CallbackShape(s);
    CallbackResults(s);
    OthersKept(s, CallbackStepOf(s));
  }

  lemma CallbackShape(s: State)
    requires Shape(s) && s.cb.Handling? && ResultsInv(s)
    ensures var t := CallbackStepOf(s);
            Shape(t) && AllEvolve(s.tests, t.tests)
            && s.pc == t.pc && s.kicked == t.kicked && s.passed == t.passed && s.broke == t.broke
            && s.accepted == t.accepted && s.delivered == t.delivered
  {
    hide Plausible, RecordedInv, InFlight;
    var r, t := s.cb.results[0].reference, CallbackStepOf(s);
    CallbackTouches(s);
    hide CallbackStepOf, RecordOk;
    if r.Ref? {
      assert RecordOk(s.tests[r.i], s.accepted[r.i], s.delivered[r.i], ProgressOf(s.cb, r.i));
      RecordEvolves(s, r.i);
    }
  }

  // What a step of the callback can change: the record it is at.
  lemma CallbackTouches(s: State)
    requires Shape(s) && s.cb.Handling?
    ensures var t, r := CallbackStepOf(s), s.cb.results[0].reference;
            Shape(t) && s.pc == t.pc && s.kicked == t.kicked && s.passed == t.passed && s.broke == t.broke
            && s.accepted == t.accepted && s.delivered == t.delivered
            && t.tests == if r.Ref? then s.tests[r.i := t.tests[r.i]] else s.tests
  {
    hide Plausible;
  }

  lemma RecordEvolves(s: State, i: nat)
    requires Shape(s) && s.cb.Handling? && s.cb.results[0].reference == Ref(i) && Shape(CallbackStepOf(s))
    requires RecordOk(s.tests[i], s.accepted[i], s.delivered[i], ProgressOf(s.cb, i))
    ensures Evolves(s.tests[i], CallbackStepOf(s).tests[i])
  {
    hide Plausible;
  }

  lemma CallbackResults(s: State)
    requires Shape(s) && s.cb.Handling? && ResultsInv(s) && Shape(CallbackStepOf(s))
    ensures ResultsInv(CallbackStepOf(s))
  {
    hide Plausible, RecordedInv, InFlight, RecordOk;
    var t := CallbackStepOf(s);
    var r := s.cb.results[0].reference;
    NextInFlight(s);
    if r.Ref? {
      OneRecord(s, r.i);
      OtherRecords(s, r.i);
      RecordedStep(s, r.i);
    } else {
      assert t.tests == s.tests;
    }
  }

  lemma NextInFlight(s: State)
    requires Shape(s) && s.cb.Handling? && InFlight(s.cb, s.delivered) && Shape(CallbackStepOf(s))
    ensures InFlight(CallbackStepOf(s).cb, s.delivered) && CallbackStepOf(s).delivered == s.delivered
  {}

  lemma OneRecord(s: State, i: nat)
    requires Shape(s) && s.cb.Handling? && s.cb.results[0].reference == Ref(i) && InFlight(s.cb, s.delivered)
    requires RecordOk(s.tests[i], s.accepted[i], s.delivered[i], ProgressOf(s.cb, i)) && Shape(CallbackStepOf(s))
    ensures var t := CallbackStepOf(s);
            RecordOk(t.tests[i], t.accepted[i], t.delivered[i], ProgressOf(t.cb, i))
  {
    hide Plausible;
    assert s.delivered[i];
  }

  lemma OtherRecords(s: State, i: nat)
    requires Shape(s) && s.cb.Handling? && s.cb.results[0].reference == Ref(i) && Shape(CallbackStepOf(s))
    requires forall j | 0 <= j < RESULTS :: RecordOk(s.tests[j], s.accepted[j], s.delivered[j], ProgressOf(s.cb, j))
    ensures var t := CallbackStepOf(s);
            forall j | 0 <= j < RESULTS && j != i :: RecordOk(t.tests[j], t.accepted[j], t.delivered[j], ProgressOf(t.cb, j))
  {
    hide Plausible, RecordOk;
    var t := CallbackStepOf(s);
    assert t.accepted == s.accepted && t.delivered == s.delivered;
    assert t.cb.Idle? || t.cb.stage.AtInitiated? || t.cb.results == s.cb.results;
    assert forall j | 0 <= j < RESULTS && j != i ::
      t.tests[j] == s.tests[j] && ProgressOf(t.cb, j) == ProgressOf(s.cb, j) == Untouched;
  }

  lemma RecordedStep(s: State, i: nat)
    requires Shape(s) && s.cb.Handling? && s.cb.results[0].reference == Ref(i) && Shape(CallbackStepOf(s))
    requires RecordedInv(s.recorded, s.tests)
    requires RecordOk(s.tests[i], s.accepted[i], s.delivered[i], ProgressOf(s.cb, i))
    ensures RecordedInv(CallbackStepOf(s).recorded, CallbackStepOf(s).tests)
  {
    hide Plausible;
    var t := CallbackStepOf(s);
    assert forall j | 0 <= j < RESULTS && j != i :: t.tests[j] == s.tests[j];
    if s.cb.stage.AtMark? { assert i !in s.recorded; }
  }

  /** ---- The driver ---- */

  lemma DriverKeeps(s: State, e: Event)
    requires Inv(s) && Enabled(s, e) && (e.Invoke? || e.DriverWrites?)
    ensures Inv(Apply(s, e))
  {
    hide RequestsInv, ResultsInv, PollInv, VerdictInv;
    DriverResults(s, e);
    OthersKept(s, Apply(s, e));
  }

  lemma DriverResults(s: State, e: Event)
    requires Shape(s) && ResultsInv(s) && Enabled(s, e) && (e.Invoke? || e.DriverWrites?)
    ensures Shape(Apply(s, e)) && AllEvolve(s.tests, Apply(s, e).tests) && ResultsInv(Apply(s, e))
  {
    hide Plausible;
    var t := Apply(s, e);
    if e.DriverWrites? {
      assert RecordOk(s.tests[e.i], s.accepted[e.i], s.delivered[e.i], ProgressOf(s.cb, e.i));
      assert ProgressOf(s.cb, e.i).Untouched?;
    }
    forall j | 0 <= j < RESULTS
      ensures RecordOk(t.tests[j], t.accepted[j], t.delivered[j], ProgressOf(t.cb, j))
    {
      assert RecordOk(s.tests[j], s.accepted[j], s.delivered[j], ProgressOf(s.cb, j));
    }
  }

  lemma StepKeeps(s: State, e: Event)
    requires Inv(s) && Enabled(s, e)
    ensures Inv(Apply(s, e))
  {
    hide Inv;
    match e
    case Requester(code) => RequesterKeeps(s, code);
    case CallbackStep => CallbackKeeps(s);
    case _ => DriverKeeps(s, e);
  }

  // Every state of every run.
  lemma {:induction false} RunKeeps(s: State, events: seq<Event>)
    requires Inv(s) && CanRun(s, events)
    ensures Inv(Run(s, events))
    decreases |events|
  {
    hide Inv, Enabled, Apply;
    if events != [] {
      StepKeeps(s, events[0]);
      RunKeeps(Apply(s, events[0]), events[1..]);
    }
  }

  /** ---- What the verdict means ---- */

  // A result is received only for an accepted request, and recorded once.
  lemma ReceivedWasAccepted(s: State, events: seq<Event>, j: nat)
    requires Starts(s) && CanRun(s, events) && j < RESULTS
    ensures var t := Run(s, events);
            |t.tests| == |t.accepted| == RESULTS && Distinct(t.recorded)
            && (j in t.recorded <==> t.tests[j].received) && (t.tests[j].received ==> t.accepted[j])
  {
    StartKeeps(s);
    RunKeeps(s, events);
  }

  // Leaving the wait loop before its limit means that every accepted request has its result.
  lemma BreakMeansComplete(s: State, events: seq<Event>, j: nat)
    requires Starts(s) && CanRun(s, events) && j < RESULTS && Run(s, events).broke
    ensures var t := Run(s, events);
            |t.tests| == |t.accepted| == RESULTS && (t.accepted[j] <==> t.tests[j].received)
  {
    StartKeeps(s);
    RunKeeps(s, events);
  }

  // Every request was taken and answered, with valid data or with a status that is not ok.
  predicate AllServed(s: State)
    requires |s.tests| == |s.accepted| == RESULTS
  {
    forall j | 0 <= j < RESULTS ::
      s.accepted[j] && s.tests[j].received && (s.tests[j].result.Ok? ==> Plausible(s.tests[j].random))
  }

  // A pass means all requests were served; and if the wait loop was left before its limit, the test
  // passes exactly then.
  lemma PassMeansServed(s: State, events: seq<Event>)
    requires Starts(s) && CanRun(s, events) && Run(s, events).pc.Finished?
    ensures var t := Run(s, events);
            |t.tests| == |t.accepted| == RESULTS && (t.passed ==> AllServed(t)) && (t.broke ==> (t.passed <==> AllServed(t)))
  {
    StartKeeps(s);
    RunKeeps(s, events);
    Verdict(Run(s, events));
  }

  lemma Verdict(t: State)
    requires Inv(t) && t.pc.Finished?
    ensures (t.passed ==> AllServed(t)) && (t.broke ==> (t.passed <==> AllServed(t)))
  {
    hide Plausible, Accepted, Received, RequestsInv, InFlight, RecordedInv;
    forall j | 0 <= j < RESULTS
      ensures Fine(t, j) ==> t.accepted[j] && t.tests[j].received && (t.tests[j].result.Ok? ==> Plausible(t.tests[j].random))
      ensures t.accepted[j] && t.tests[j].received && (t.tests[j].result.Ok? ==> Plausible(t.tests[j].random)) ==> Fine(t, j)
    {
      assert RecordOk(t.tests[j], t.accepted[j], t.delivered[j], ProgressOf(t.cb, j));
    }
    if t.passed {
      assert forall j | 0 <= j < RESULTS :: Fine(t, j);
    } else if t.broke {
      var j :| 0 <= j < RESULTS && !Fine(t, j);
      assert !AllServed(t);
    }
  }

  /** ---- Runs to every verdict ---- */

  lemma Prepend(s: State, e: Event, more: seq<Event>)
    requires Enabled(s, e) && CanRun(Apply(s, e), more)
    ensures CanRun(s, [e] + more) && Run(s, [e] + more) == Run(Apply(s, e), more)
  {
    assert ([e] + more)[1..] == more;
  }

  function Mine(t: Test): Test {
    t.(initiated := true)
  }

  // The driver takes all requests from i on.
  lemma {:induction false} RequestsTaken(s: State, i: nat) returns (events: seq<Event>)
    requires Shape(s) && i < RESULTS && s.pc == Mark(i)
    requires forall j | 0 <= j < i :: s.accepted[j] && s.tests[j].initiated
    ensures CanRun(s, events)
    ensures var t := Run(s, events);
            Shape(t) && t == s.(pc := Poll(1, 0, 0), kicked := s.kicked + RESULTS - i, tests := t.tests, accepted := t.accepted)
            && forall j | 0 <= j < RESULTS :: t.accepted[j] && t.tests[j] == if j < i then s.tests[j] else Mine(s.tests[j])
    decreases RESULTS - i
  {
    hide Run, CanRun;
    var e := Requester(Ok);
    var s1 := Apply(s, e);
    var s2 := Apply(s1, e);
    var s3 := Apply(s2, e);
    TakenRequest(s, i);
    var more := [];
    if i + 1 < RESULTS {
      more := RequestsTaken(s3, i + 1);
    } else {
      RunNothing(s3);
    }
    Prepend(s2, e, more);
    Prepend(s1, e, [e] + more);
    Prepend(s, e, [e] + ([e] + more));
    events := [e] + ([e] + ([e] + more));
  }

  lemma TakenRequest(s: State, i: nat)
    requires Shape(s) && i < RESULTS && s.pc == Mark(i)
    ensures var s1 := RequesterStep(s, Ok);
            Shape(s1) && s1.pc == Submit(i) && var s2 := RequesterStep(s1, Ok);
            Shape(s2) && s2.pc == Counting(i) && var s3 := RequesterStep(s2, Ok);
            Shape(s3) && s3 == s.(pc := NextRequest(i), kicked := s.kicked + 1, tests := s.tests[i := Mine(s.tests[i])],
                                  accepted := s.accepted[i := true])
  {}

  // The driver writes the data of all requests from i on.
  lemma {:induction false} DataWritten(s: State, data: seq<RandomData>, i: nat) returns (events: seq<Event>)
    requires Shape(s) && |data| == RESULTS && i <= RESULTS
    requires forall j | 0 <= j < RESULTS :: s.accepted[j] && !s.delivered[j]
    ensures CanRun(s, events)
    ensures var t := Run(s, events);
            t == s.(tests := t.tests) && |t.tests| == RESULTS
            && forall j | 0 <= j < RESULTS :: t.tests[j] == if j < i then s.tests[j] else s.tests[j].(random := data[j])
    decreases RESULTS - i
  {
    hide Run, CanRun;
    if i == RESULTS {
      events := [];
      RunNothing(s);
    } else {
      var e := DriverWrites(i, data[i]);
      var more := DataWritten(Apply(s, e), data, i + 1);
      Prepend(s, e, more);
      events := [e] + more;
    }
  }

  // One result for each request, from i on.
  function ResultsFrom(codes: seq<Status>, i: nat): (r: seq<Result>)
    requires i <= |codes|
    ensures |r| == |codes| - i && forall k | 0 <= k < |r| :: r[k] == Result(Ref(i + k), codes[i + k])
  {
    seq(|codes| - i, k requires 0 <= k < |codes| - i => Result(Ref(i + k), codes[i + k]))
  }

  // Recording them all.
  lemma {:induction false} AllHandled(tests: seq<Test>, codes: seq<Status>, i: nat)
    requires |tests| == |codes| == RESULTS && i <= RESULTS
    requires forall j | i <= j < RESULTS :: tests[j].initiated && !tests[j].received
    ensures var t := HandledAll(tests, ResultsFrom(codes, i));
            forall j | 0 <= j < RESULTS :: t[j] == if j < i then tests[j] else Handled(tests[j], codes[j])
    decreases RESULTS - i
  {
    hide Plausible, Handled, HandledAll;
    var results := ResultsFrom(codes, i);
    if i == RESULTS {
      HandledNone(tests);
    } else {
      HandledStep(tests, results);
      assert results[1..] == ResultsFrom(codes, i + 1);
      AllHandled(HandledFirst(tests, results[0]), codes, i + 1);
    }
  }

  // The requester finds all results and leaves the wait loop.
  lemma {:induction false} AllFound(s: State, i: nat) returns (events: seq<Event>)
    requires Shape(s) && i < RESULTS && s.pc == Poll(1, i, i) && s.kicked <= RESULTS
    requires forall j | 0 <= j < RESULTS :: s.tests[j].received
    ensures CanRun(s, events) && Run(s, events) == s.(pc := Check(0), broke := true)
    decreases RESULTS - i
  {
    hide Run, CanRun;
    var e := Requester(Ok);
    var t := Apply(s, e);
    if i + 1 < RESULTS {
      var more := AllFound(t, i + 1);
      Prepend(s, e, more);
      events := [e] + more;
    } else {
      var u := Apply(t, e);
      RunNothing(u);
      Prepend(t, e, []);
      Prepend(s, e, [e] + []);
      events := [e] + ([e] + []);
    }
  }

  function StepsInCheck(pc: Pc): nat
    requires Checking(pc)
  {
    match pc
    case Check(_) => 4
    case CheckReceived(_) => 3
    case CheckResult(_) => 2
    case CheckRandom(_) => 1
    case _ => 0
  }

  // From the checks on, the requester finishes by itself whatever it finds.
  lemma {:induction false} ChecksFinish(s: State) returns (events: seq<Event>)
    requires Shape(s) && Checking(s.pc)
    ensures CanRun(s, events)
    ensures var t := Run(s, events); t == s.(pc := Finished, passed := t.passed)
    decreases RESULTS - Checked(s.pc), StepsInCheck(s.pc)
  {
    hide Run, CanRun;
    if s.pc.Finished? {
      events := [];
      RunNothing(s);
    } else {
      var e := Requester(Ok);
      var more := ChecksFinish(Apply(s, e));
      Prepend(s, e, more);
      events := [e] + more;
    }
  }

  // From every start, for all result codes and all random data: a run in which every request is taken and
  // answered with its code and its data, and the test ends. It passes exactly if no request with an ok
  // code has data that look unwritten, so that ten bad codes pass.
  lemma VerdictRun(s: State, codes: seq<Status>, data: seq<RandomData>) returns (events: seq<Event>)
    requires Starts(s) && |codes| == |data| == RESULTS
    ensures CanRun(s, events)
    ensures var t := Run(s, events);
            |t.tests| == RESULTS && t.pc.Finished? && t.broke
            && (forall j | 0 <= j < RESULTS ::
                  t.tests[j].received && t.tests[j].result == codes[j] && t.tests[j].random == data[j])
            && (t.passed <==> forall j | 0 <= j < RESULTS :: codes[j].Ok? ==> Plausible(data[j]))
  {
    hide Run, CanRun, HandledAll, Plausible;
    events := RequestsTaken(s, 0);
    var s1 := Run(s, events);
    var write := DataWritten(s1, data, 0);
    var s2 := Run(s1, write);
    RunJoin(s, events, write);
    events := events + write;
    var hand := Invoke(Ok, ResultsFrom(codes, 0));
    var s3 := Apply(s2, hand);
    var record := CallbackAlone(s3);
    Prepend(s2, hand, record);
    var s4 := Run(s3, record);
    RunJoin(s, events, [hand] + record);
    events := events + ([hand] + record);
    AllHandled(s2.tests, codes, 0);
    var find := AllFound(s4, 0);
    var s5 := Run(s4, find);
    RunJoin(s, events, find);
    events := events + find;
    var check := ChecksFinish(s5);
    RunJoin(s, events, check);
    events := events + check;
    var t := Run(s, events);
    PassMeansServed(s, events);
    forall j | 0 <= j < RESULTS
      ensures t.accepted[j] && t.tests[j].received && t.tests[j].result == codes[j] && t.tests[j].random == data[j]
    {
      assert t.tests[j] == Handled(s2.tests[j], codes[j]);
    }
  }

  // The comment of the source asks for success, but ten errors pass.
  lemma TenErrorsPass(s: State) returns (events: seq<Event>)
    requires Starts(s)
    ensures CanRun(s, events)
    ensures var t := Run(s, events);
            |t.tests| == RESULTS && t.pc.Finished? && t.passed && forall j | 0 <= j < RESULTS :: t.tests[j].result == Bad(1)
  {
    hide Run, CanRun;
    events := VerdictRun(s, seq(RESULTS, i => Bad(1)), seq(RESULTS, i => seq(RAND, j => Zeros(8))));
  }

  /** ---- The requester ends ---- */

  // How many steps the requester can still take.
  function StepsLeft(pc: Pc): int {
    match pc
    case Mark(i) => 4_400_029 + 3 * (10 - i)
    case Submit(i) => 4_400_028 + 3 * (10 - i)
    case Counting(i) => 4_400_027 + 3 * (10 - i)
    case Undo(i) => 4_400_027 + 3 * (10 - i)
    case Poll(rounds, i, _) => 40 + 11 * (400_000 - rounds) - i
    case Decide(rounds, _) => 30 + 11 * (400_000 - rounds)
    case Check(i) => 4 * (10 - i)
    case CheckReceived(i) => 4 * (10 - i) - 1
    case CheckResult(i) => 4 * (10 - i) - 2
    case CheckRandom(i) => 4 * (10 - i) - 3
    case Finished => 0
  }

  predicate PollsLeft(pc: Pc) {
    (pc.Poll? || pc.Decide?) ==> pc.rounds < 400_000
  }

  function RequesterSteps(events: seq<Event>): nat {
    if events == [] then 0 else (if events[0].Requester? then 1 else 0) + RequesterSteps(events[1..])
  }

  lemma RequestLess(s: State, code: Status)
    requires Shape(s) && Requesting(s.pc) && PollsLeft(s.pc)
    ensures var pc := RequesterStep(s, code).pc; PcInRange(pc) && PollsLeft(pc) && StepsLeft(pc) < StepsLeft(s.pc)
  {}

  lemma PollLess(s: State, code: Status)
    requires Shape(s) && (s.pc.Poll? || s.pc.Decide?) && PollsLeft(s.pc)
    ensures var pc := RequesterStep(s, code).pc; PcInRange(pc) && PollsLeft(pc) && StepsLeft(pc) < StepsLeft(s.pc)
  {}

  lemma CheckLess(s: State, code: Status)
    requires Shape(s) && (s.pc.Check? || s.pc.CheckReceived?) && PollsLeft(s.pc)
    ensures var pc := RequesterStep(s, code).pc; PcInRange(pc) && PollsLeft(pc) && StepsLeft(pc) < StepsLeft(s.pc)
  {}

  lemma ResultLess(s: State, code: Status)
    requires Shape(s) && (s.pc.CheckResult? || s.pc.CheckRandom?) && PollsLeft(s.pc)
    ensures var pc := RequesterStep(s, code).pc; PcInRange(pc) && PollsLeft(pc) && StepsLeft(pc) < StepsLeft(s.pc)
  {}

  lemma RequesterLess(s: State, code: Status)
    requires Shape(s) && !s.pc.Finished? && PollsLeft(s.pc)
    ensures var pc := RequesterStep(s, code).pc; PcInRange(pc) && PollsLeft(pc) && StepsLeft(pc) < StepsLeft(s.pc)
  {
    hide RequesterStep, Shape, PcInRange, StepsLeft, PollsLeft;
    if Requesting(s.pc) { RequestLess(s, code); }
    else if s.pc.Poll? || s.pc.Decide? { PollLess(s, code); }
    else if s.pc.Check? || s.pc.CheckReceived? { CheckLess(s, code); }
    else { ResultLess(s, code); }
  }

  lemma OthersWait(s: State, e: Event)
    requires Enabled(s, e) && !e.Requester?
    ensures Apply(s, e).pc == s.pc
  {
    hide Plausible, Deliver;
  }

  lemma NothingLeft(pc: Pc)
    requires PcInRange(pc) && PollsLeft(pc)
    ensures 0 <= StepsLeft(pc)
  {}

  lemma {:induction false} StepsBound(s: State, events: seq<Event>)
    requires CanRun(s, events) && PcInRange(s.pc) && PollsLeft(s.pc)
    ensures RequesterSteps(events) <= StepsLeft(s.pc)
    decreases |events|
  {
    hide Apply, StepsLeft, PollsLeft, PcInRange, RequesterStep, CallbackStepOf;
    if events == [] {
      NothingLeft(s.pc);
    } else {
      if events[0].Requester? {
        RequesterLess(s, events[0].code);
        AsRequester(s, events[0]);
      } else {
        OthersWait(s, events[0]);
      }
      StepsBound(Apply(s, events[0]), events[1..]);
    }
  }

  lemma AsRequester(s: State, e: Event)
    requires Enabled(s, e) && e.Requester?
    ensures !s.pc.Finished? && Apply(s, e) == RequesterStep(s, e.code)
  {
    hide RequesterStep;
  }

  // Whatever driver and callback do, the requester is done after at most 4400059 steps of its own.
  lemma RequesterEnds(s: State, events: seq<Event>)
    requires Starts(s) && CanRun(s, events)
    ensures RequesterSteps(events) <= 4_400_059
  {
    StepsBound(s, events);
  }
}
