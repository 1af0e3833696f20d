/**
 Log space reservation in kernel/log.c: begin_op, end_op and the guards of log_write, over every
 interleaving of file-system operations.

 An operation adds entries to the in-memory log header. The state keeps the header's length, the
 committing flag, and for each outstanding operation how many entries it has added. The steps are
 those that run under log.lock, plus the end of commit. An operation promises to add at most
 `bound` entries; rewriting a block that is already logged (absorption) adds none.
 */
module Reservation {
  const MAXOPBLOCKS := 10
  const LOGSIZE := 30

  /** begin_op lets one more operation start. */
  predicate CanBegin(n: nat, outstanding: nat, committing: bool) {
    !committing && n + (outstanding + 1) * MAXOPBLOCKS <= LOGSIZE
  }

  /** log_write panics, whether or not the block is already logged. */
  predicate LogFull(n: nat, size: nat) {
    n >= LOGSIZE || n >= size - 1
  }

  datatype State = State(n: nat, committing: bool, ops: seq<nat>)

  datatype Step =
    | Begin
    | Write(i: nat, isNew: bool)
    | End(i: nat)
    | Committed

  const INITIAL := State(0, false, [])

  predicate Enabled(s: State, step: Step, bound: nat) {
    match step
    case Begin => CanBegin(s.n, |s.ops|, s.committing)
    case Write(i, isNew) => i < |s.ops| && if isNew then s.ops[i] < bound else s.n > 0
    case End(i) => i < |s.ops|
    case Committed => s.committing
  }

  /** The step ends in one of the panics of log_write and end_op. */
  predicate Panics(s: State, step: Step, size: nat) {
    match step
    case Write(_, _) => LogFull(s.n, size) || |s.ops| < 1
    case End(_) => s.committing
    case Begin => false
    case Committed => false
  }

  function Next(s: State, step: Step, bound: nat): State
    requires Enabled(s, step, bound)
  {
    match step
    case Begin => s.(ops := s.ops + [0])
    case Write(i, isNew) => if isNew then s.(n := s.n + 1, ops := s.ops[i := s.ops[i] + 1]) else s
    case End(i) =>
      var ops := s.ops[..i] + s.ops[i + 1..];
      s.(ops := ops, committing := ops == [])
    case Committed => State(0, false, s.ops)
  }

  /** Every step of the run is enabled and none panics. */
  predicate Run(s: State, steps: seq<Step>, bound: nat, size: nat)
    decreases |steps|
  {
    steps == [] || (Enabled(s, steps[0], bound) && !Panics(s, steps[0], size) &&
      Run(Next(s, steps[0], bound), steps[1..], bound, size))
  }

  function Final(s: State, steps: seq<Step>, bound: nat, size: nat): State
    requires Run(s, steps, bound, size)
    decreases |steps|
  {
    if steps == [] then s else Final(Next(s, steps[0], bound), steps[1..], bound, size)
  }

  function Sum(ops: seq<nat>): nat {
    if ops == [] then 0 else ops[0] + Sum(ops[1..])
  }

  lemma {:induction false} SumConcat(a: seq<nat>, b: seq<nat>)
    ensures Sum(a + b) == Sum(a) + Sum(b)
  {
    if a == [] {
      assert a + b == b;
    } else {
      SumConcat(a[1..], b);
      assert (a + b)[1..] == a[1..] + b;
    }
  }

  lemma SumSplit(ops: seq<nat>, i: nat, x: nat)
    requires i < |ops|
    ensures Sum(ops[i := x]) == Sum(ops) - ops[i] + x
    ensures Sum(ops[..i] + ops[i + 1..]) == Sum(ops) - ops[i]
  {
    assert ops == ops[..i] + ([ops[i]] + ops[i + 1..]) && ops[i := x] == ops[..i] + ([x] + ops[i + 1..]);
    SumConcat(ops[..i], [ops[i]] + ops[i + 1..]);
    SumConcat(ops[..i], [x] + ops[i + 1..]);
    SumConcat(ops[..i], ops[i + 1..]);
  }

  /** Entries in the log plus everything the outstanding operations may still add. */
  function Demand(s: State, bound: nat): int {
    s.n + bound * |s.ops| - Sum(s.ops)
  }

  /** Kept by every step: a commit runs alone, an idle log is empty, and the demand is bounded. */
  ghost predicate Inv(s: State, bound: nat) {
    && (s.ops == [] && !s.committing ==> s.n == 0)
    && (s.committing ==> s.ops == [])
    && (forall i | 0 <= i < |s.ops| :: s.ops[i] <= bound)
    && Demand(s, bound) <= MAXOPBLOCKS + 2 * bound
  }

  lemma {:induction false} SumAtMost(ops: seq<nat>, bound: nat)
    requires forall i | 0 <= i < |ops| :: ops[i] <= bound
    ensures Sum(ops) <= bound * |ops|
  {
    if ops != [] {
      SumAtMost(ops[1..], bound);
    }
  }

  lemma DemandStep(s: State, step: Step, bound: nat)
    requires Enabled(s, step, bound)
    ensures var d, d' := Demand(s, bound), Demand(Next(s, step, bound), bound);
      match step
      case Begin => d' == d + bound
      case Write(_, _) => d' == d
      case End(i) => d' == d - (bound - s.ops[i])
      case Committed => d' == d - s.n
  {
    match step
    case Begin =>
      SumConcat(s.ops, [0]);
      assert bound * (|s.ops| + 1) == bound * |s.ops| + bound;
    case Write(i, _) =>
      SumSplit(s.ops, i, s.ops[i] + 1);
    case End(i) =>
      SumSplit(s.ops, i, 0);
      assert bound * (|s.ops| - 1) == bound * |s.ops| - bound;
    case Committed =>
  }

  /** At most two operations run when another begins, and an idle log is empty. */
  lemma BeginFits(s: State, bound: nat)
    requires Inv(s, bound) && Enabled(s, Begin, bound) && bound <= MAXOPBLOCKS
    ensures Demand(s, bound) + bound <= MAXOPBLOCKS + 2 * bound
  {
    var k := |s.ops|;
    assert k == 0 || k == 1 || k == 2;
    if k == 0 {
      assert bound * k == 0;
    } else if k == 1 {
      assert bound * k == bound;
    } else {
      assert bound * k == 2 * bound;
    }
  }

  lemma StepKeepsInv(s: State, step: Step, bound: nat)
    requires Inv(s, bound) && Enabled(s, step, bound) && bound <= MAXOPBLOCKS
    ensures Inv(Next(s, step, bound), bound)
  {
    DemandStep(s, step, bound);
    if step.Begin? {
      BeginFits(s, bound);
    }
    hide Demand;
  }

  lemma InvNoPanic(s: State, step: Step, bound: nat, size: nat)
    requires Inv(s, bound) && Enabled(s, step, bound) && !LogFull(MAXOPBLOCKS + 2 * bound, size)
    ensures !Panics(s, step, size)
  {
    SumAtMost(s.ops, bound);
  }

  /** Whether some run reaches a panic. */
  ghost predicate PanicReachable(bound: nat, size: nat) {
    exists steps, step ::
      && Run(INITIAL, steps, bound, size)
      && Enabled(Final(INITIAL, steps, bound, size), step, bound)
      && Panics(Final(INITIAL, steps, bound, size), step, size)
  }

  lemma {:induction false} RunKeepsInv(s: State, steps: seq<Step>, bound: nat, size: nat)
    requires Inv(s, bound) && bound <= MAXOPBLOCKS && Run(s, steps, bound, size)
    ensures Inv(Final(s, steps, bound, size), bound)
    decreases |steps|
  {
    if steps != [] {
      StepKeepsInv(s, steps[0], bound);
      RunKeepsInv(Next(s, steps[0], bound), steps[1..], bound, size);
    }
  }

  // The other direction: a run that fills the log.

  lemma {:induction false} Extend(s: State, steps: seq<Step>, step: Step, bound: nat, size: nat)
    requires Run(s, steps, bound, size)
    requires var f := Final(s, steps, bound, size); Enabled(f, step, bound) && !Panics(f, step, size)
    ensures Run(s, steps + [step], bound, size)
    ensures Final(s, steps + [step], bound, size) == Next(Final(s, steps, bound, size), step, bound)
    decreases |steps|
  {
    if steps != [] {
      Extend(Next(s, steps[0], bound), steps[1..], step, bound, size);
      assert (steps + [step])[1..] == steps[1..] + [step];
    }
  }

  ghost predicate Reachable(s: State, bound: nat, size: nat) {
    exists steps :: Run(INITIAL, steps, bound, size) && Final(INITIAL, steps, bound, size) == s
  }

  /** One more step, or a panic. */
  lemma Reach(s: State, step: Step, bound: nat, size: nat)
    requires Reachable(s, bound, size) && Enabled(s, step, bound)
    ensures PanicReachable(bound, size) || Reachable(Next(s, step, bound), bound, size)
  {
    var steps :| Run(INITIAL, steps, bound, size) && Final(INITIAL, steps, bound, size) == s;
    if !Panics(s, step, size) {
      Extend(INITIAL, steps, step, bound, size);
    }
  }

  /** Beside a first operation that writes nothing yet, others come and go until n entries are logged. */
  lemma {:induction false} FillTo(n: nat, bound: nat, size: nat)
    requires 1 <= bound && n <= MAXOPBLOCKS
    ensures PanicReachable(bound, size) || Reachable(State(n, false, [0]), bound, size)
  {
    if n == 0 {
      assert Run(INITIAL, [], bound, size) && Final(INITIAL, [], bound, size) == INITIAL;
      Reach(INITIAL, Begin, bound, size);
      assert [] + [0] == [0];
    } else {
      FillTo(n - 1, bound, size);
      if !PanicReachable(bound, size) {
        Reach(State(n - 1, false, [0]), Begin, bound, size);
        assert [0] + [0] == [0, 0];
        Reach(State(n - 1, false, [0, 0]), Write(1, true), bound, size);
        assert [0, 0][1 := 1] == [0, 1];
        Reach(State(n, false, [0, 1]), End(1), bound, size);
        assert [0, 1][..1] + [0, 1][2..] == [0];
      }
    }
  }

  /** Two operations that start beside ten logged entries and use all they promised. */
  lemma {:induction false} WriteAll(x: nat, y: nat, bound: nat, size: nat)
    requires 1 <= bound && x <= bound && y <= bound
    ensures PanicReachable(bound, size) || Reachable(State(MAXOPBLOCKS + x + y, false, [x, y]), bound, size)
    decreases x + y
  {
    if x > 0 {
      WriteAll(x - 1, y, bound, size);
      assert [x - 1, y][0 := x] == [x, y];
      if !PanicReachable(bound, size) {
        Reach(State(MAXOPBLOCKS + x - 1 + y, false, [x - 1, y]), Write(0, true), bound, size);
      }
    } else if y > 0 {
      WriteAll(x, y - 1, bound, size);
      assert [x, y - 1][1 := y] == [x, y];
      if !PanicReachable(bound, size) {
        Reach(State(MAXOPBLOCKS + x + y - 1, false, [x, y - 1]), Write(1, true), bound, size);
      }
    } else {
      FillTo(MAXOPBLOCKS, bound, size);
      assert [0] + [0] == [0, 0];
      if !PanicReachable(bound, size) {
        Reach(State(MAXOPBLOCKS, false, [0]), Begin, bound, size);
      }
    }
  }

  /** The reservation is exact: with at most `bound` entries an operation, some interleaving panics
      if and only if the log cannot take MAXOPBLOCKS + 2 * bound entries and one more log_write. */
  lemma PanicExactly(bound: nat, size: nat)
    requires 1 <= bound <= MAXOPBLOCKS
    ensures PanicReachable(bound, size) <==> LogFull(MAXOPBLOCKS + 2 * bound, size)
  {
    if LogFull(MAXOPBLOCKS + 2 * bound, size) {
      WriteAll(bound, bound, bound, size);
      var s := State(MAXOPBLOCKS + 2 * bound, false, [bound, bound]);
      if Reachable(s, bound, size) {
        assert Enabled(s, Write(0, false), bound) && Panics(s, Write(0, false), size);
      }
    } else {
      forall steps, step | Run(INITIAL, steps, bound, size) && Enabled(Final(INITIAL, steps, bound, size), step, bound)
        ensures !Panics(Final(INITIAL, steps, bound, size), step, size)
      {
        RunKeepsInv(INITIAL, steps, bound, size);
        InvNoPanic(Final(INITIAL, steps, bound, size), step, bound, size);
      }
    }
  }

  /** On the disk that mkfs builds (a log of LOGSIZE blocks) nine entries an operation are safe and
      the promised MAXOPBLOCKS are not. */
  lemma NineNotTen()
    ensures !PanicReachable(MAXOPBLOCKS - 1, LOGSIZE) && PanicReachable(MAXOPBLOCKS, LOGSIZE)
  {
    PanicExactly(MAXOPBLOCKS - 1, LOGSIZE);
    PanicExactly(MAXOPBLOCKS, LOGSIZE);
  }
}
