/** Day 11: monkeys pass items around. Each monkey in turn inspects each of its items, computes a
    new worry level, and throws the item to one of two other monkeys depending on a divisibility
    test. The monkeys live in a double-ended queue that rotates once per round. */
module Day11 {
  import opened Util
  import opened Text

  datatype Op = Mul | Add

  function Apply(op: Op, a: nat, b: nat): nat
  {
    match op
    case Mul => a * b
    case Add => a + b
  }

  /** `operand: None` stands for `old`, the item itself. */
  datatype Monkey = Monkey(items: seq<nat>, operator: Op, operand: Option<nat>, test: nat, ifTrue: nat, ifFalse: nat)

  /** The monkeys' rules in a form `do_monkey_business` can run without panicking: every test is a
      positive divisor (`%` by zero panics), and both targets of every monkey are other monkeys'
      numbers. This is stricter than the source, which fails only on a throw actually made: to
      oneself the `idx` formula points past the deque, while a target equal to the monkey count
      can land on monkey 0. */
  ghost predicate Valid(ms: seq<Monkey>)
  {
    forall i | 0 <= i < |ms| :: ms[i].test > 0 && ms[i].ifTrue < |ms| && ms[i].ifFalse < |ms| && ms[i].ifTrue != i && ms[i].ifFalse != i
  }

  /** The operation applied to an item: `operator(item, operand or item)`. */
  function Operated(m: Monkey, item: nat): nat
  {
    Apply(m.operator, item, match m.operand case Some(n) => n case None => item)
  }

  /** The new worry level: divided by `relief`, then reduced modulo `modulus` when there is one. */
  function NewWorry(m: Monkey, item: nat, relief: nat, modulus: Option<nat>): nat
    requires relief > 0 && (modulus.Some? ==> modulus.value > 0)
  {
    match modulus
    case Some(k) => (Operated(m, item) / relief) % k
    case None => Operated(m, item) / relief
  }

  /** The monkey an item of worry `w` is thrown to. */
  function Target(m: Monkey, w: nat): nat
    requires m.test > 0
  {
    if w % m.test == 0 then m.ifTrue else m.ifFalse
  }

  /** Melds the rules of the reduction: a positive relief and a positive modulus if any. */
  predicate Reduction(relief: nat, modulus: Option<nat>)
  {
    relief > 0 && (modulus.Some? ==> modulus.value > 0)
  }

  // ---------------------------------------------------------------------------------------------
  // The rounds, indexed by monkey number

  /** Monkey `i` inspects its first item and throws it. */
  function Throw(ms: seq<Monkey>, i: nat, relief: nat, modulus: Option<nat>): (next: seq<Monkey>)
    requires Valid(ms) && i < |ms| && |ms[i].items| > 0 && Reduction(relief, modulus)
    ensures Valid(next) && |next| == |ms| && next[i].items == ms[i].items[1..]
  {
    ms[i := ms[i].(items := ms[i].items[1..])]
      [Target(ms[i], NewWorry(ms[i], ms[i].items[0], relief, modulus))
        := ms[Target(ms[i], NewWorry(ms[i], ms[i].items[0], relief, modulus))].(items :=
             ms[Target(ms[i], NewWorry(ms[i], ms[i].items[0], relief, modulus))].items + [NewWorry(ms[i], ms[i].items[0], relief, modulus)])]
  }

  /** Monkey `i`'s first `k` throws. */
  function Throws(ms: seq<Monkey>, i: nat, k: nat, relief: nat, modulus: Option<nat>): (next: seq<Monkey>)
    requires Valid(ms) && i < |ms| && k <= |ms[i].items| && Reduction(relief, modulus)
    ensures Valid(next) && |next| == |ms| && next[i].items == ms[i].items[k..]
  {
    if k == 0 then ms else Throw(Throws(ms, i, k - 1, relief, modulus), i, relief, modulus)
  }

  /** Monkey `i`'s turn: it throws every item it holds. */
  function Turn(ms: seq<Monkey>, i: nat, relief: nat, modulus: Option<nat>): (next: seq<Monkey>)
    requires Valid(ms) && i < |ms| && Reduction(relief, modulus)
    ensures Valid(next) && |next| == |ms| && next[i].items == []
  {
    Throws(ms, i, |ms[i].items|, relief, modulus)
  }

  /** The monkeys with one inspection count each. */
  datatype State = State(monkeys: seq<Monkey>, inspections: seq<nat>)

  ghost predicate Good(s: State)
  {
    Valid(s.monkeys) && |s.inspections| == |s.monkeys|
  }

  /** Monkey `i`'s turn with its inspection count, which grows by the items it holds when its turn
      starts. */
  function PlayedTurn(s: State, i: nat, relief: nat, modulus: Option<nat>): (next: State)
    requires Good(s) && i < |s.monkeys| && Reduction(relief, modulus)
    ensures Good(next) && |next.monkeys| == |s.monkeys|
  {
    State(Turn(s.monkeys, i, relief, modulus), s.inspections[i := s.inspections[i] + |s.monkeys[i].items|])
  }

  /** The first `k` turns of a round. */
  function Turns(s: State, k: nat, relief: nat, modulus: Option<nat>): (next: State)
    requires Good(s) && k <= |s.monkeys| && Reduction(relief, modulus)
    ensures Good(next) && |next.monkeys| == |s.monkeys|
  {
    if k == 0 then s else PlayedTurn(Turns(s, k - 1, relief, modulus), k - 1, relief, modulus)
  }

  /** The `k`-th turn follows the first `k - 1`. */
  lemma TurnsStep(s: State, k: nat, relief: nat, modulus: Option<nat>)
    requires Good(s) && 0 < k <= |s.monkeys| && Reduction(relief, modulus)
    ensures Turns(s, k, relief, modulus) == PlayedTurn(Turns(s, k - 1, relief, modulus), k - 1, relief, modulus)
  {
  }

  function Round(s: State, relief: nat, modulus: Option<nat>): (next: State)
    requires Good(s) && Reduction(relief, modulus)
    ensures Good(next) && |next.monkeys| == |s.monkeys|
  {
    Turns(s, |s.monkeys|, relief, modulus)
  }

  function Rounds(s: State, rounds: nat, relief: nat, modulus: Option<nat>): (next: State)
    requires Good(s) && Reduction(relief, modulus)
    ensures Good(next) && |next.monkeys| == |s.monkeys|
  {
    if rounds == 0 then s else Round(Rounds(s, rounds - 1, relief, modulus), relief, modulus)
  }

  /** `max_worry`: the product of every monkey's test; positive when every test is. */
  function MaxWorry(ms: seq<Monkey>): (w: nat)
    ensures (forall i | 0 <= i < |ms| :: ms[i].test > 0) ==> w > 0
  {
    if ms == [] then 1 else MaxWorry(ms[..|ms| - 1]) * ms[|ms| - 1].test
  }

  /** Every monkey's test divides `max_worry`. */
  lemma {:induction false} MaxWorryDivisible(ms: seq<Monkey>, j: nat)
    requires j < |ms|
    ensures ms[j].test == 0 || MaxWorry(ms) % ms[j].test == 0
    decreases |ms|
  {
    if ms[j].test > 0 {
      var init := ms[..|ms| - 1];
      if j == |ms| - 1 {
        assert MaxWorry(ms) == MaxWorry(init) * ms[j].test;
        MulMod(MaxWorry(init), ms[j].test);
      } else {
        MaxWorryDivisible(init, j);
        var q := MaxWorry(init) / ms[j].test;
        assert MaxWorry(init) == ms[j].test * q;
        assert MaxWorry(ms) == ms[j].test * (q * ms[|ms| - 1].test);
        MulMod(q * ms[|ms| - 1].test, ms[j].test);
      }
    }
  }

  lemma MulMod(a: nat, b: nat)
    requires b > 0
    ensures (a * b) % b == 0 && (b * a) % b == 0
  {
    assert a * b == b * a;
    DivModUnique(b * a, b, a, 0);
  }

  // ---------------------------------------------------------------------------------------------
  // The deque: `do_monkey_business` keeps the monkeys in a rotating queue

  /** The deque at the start of monkey `i`'s turn: it has been rotated `i` times. */
  function Rotate(ms: seq<Monkey>, i: nat): seq<Monkey>
    requires i <= |ms|
  {
    ms[i..] + ms[..i]
  }

  /** The deque while monkey `i` is popped off its front. */
  function Without(ms: seq<Monkey>, i: nat): seq<Monkey>
    requires i < |ms|
  {
    ms[i + 1..] + ms[..i]
  }

  /** The `idx` formula: where monkey `t` sits in the deque while monkey `i` is popped. */
  function Slot(i: nat, t: nat, n: nat): nat
    requires i < n && t < n && t != i
  {
    if i < t then t - 1 - i else t + n - 1 - i
  }

  /** Monkey `t` sits at position `(t - 1 - i) mod n`, which is what `Slot` computes. */
  lemma SlotFinds(ms: seq<Monkey>, i: nat, t: nat)
    requires i < |ms| && t < |ms| && t != i
    ensures Slot(i, t, |ms|) < |Without(ms, i)| && Without(ms, i)[Slot(i, t, |ms|)] == ms[t]
    ensures Slot(i, t, |ms|) == (t - 1 - i) % |ms|
  {
    var n := |ms|;
    if i < t {
      assert 0 <= t - 1 - i < n;
    } else {
      assert t - 1 - i == (t + n - 1 - i) - n;
      assert 0 <= t + n - 1 - i < n;
      DivModUnique(t - 1 - i, n, -1, t + n - 1 - i);
    }
  }

  /** Pushing onto monkey `t` in the deque is pushing onto monkey `t` by number. */
  lemma WithoutUpdate(ms: seq<Monkey>, i: nat, t: nat, m: Monkey)
    requires i < |ms| && t < |ms| && t != i
    ensures Without(ms[t := m], i) == Without(ms, i)[Slot(i, t, |ms|) := m]
  {
    SlotFinds(ms, i, t);
    var a := Without(ms[t := m], i);
    var b := Without(ms, i)[Slot(i, t, |ms|) := m];
    assert |a| == |b|;
    forall p | 0 <= p < |a|
      ensures a[p] == b[p]
    {
      if p < |ms| - 1 - i {
        assert a[p] == ms[t := m][i + 1 + p];
      } else {
        assert a[p] == ms[t := m][p - (|ms| - 1 - i)];
      }
    }
  }

  /** The popped monkey is not in the deque. */
  lemma WithoutIgnores(ms: seq<Monkey>, i: nat, m: Monkey)
    requires i < |ms|
    ensures Without(ms[i := m], i) == Without(ms, i)
  {
    assert ms[i := m][i + 1..] == ms[i + 1..];
    assert ms[i := m][..i] == ms[..i];
  }

  /** `pop_front` takes monkey `i` off the rotated deque; `push_back` leaves it rotated once more. */
  lemma RotateParts(ms: seq<Monkey>, i: nat)
    requires i < |ms|
    ensures Rotate(ms, i) == [ms[i]] + Without(ms, i)
    ensures Without(ms, i) + [ms[i]] == Rotate(ms, i + 1)
  {
    assert ms[i..] == [ms[i]] + ms[i + 1..];
    assert ms[..i + 1] == ms[..i] + [ms[i]];
  }

  /** Rotating by zero or by the deque's length gives the monkeys back in order. */
  lemma RotateWhole(ms: seq<Monkey>)
    ensures Rotate(ms, 0) == ms && Rotate(ms, |ms|) == ms
  {
    assert ms[0..] == ms && ms[..0] == [];
    assert ms[|ms|..] == [] && ms[..|ms|] == ms;
  }

  /** One throw as the deque sees it: the popped monkey loses its first item, and the item, with
      its new worry level, is pushed onto the target's slot of the deque. */
  lemma ThrowInDeque(ms: seq<Monkey>, i: nat, relief: nat, modulus: Option<nat>)
    requires Valid(ms) && i < |ms| && |ms[i].items| > 0 && Reduction(relief, modulus)
    ensures Throw(ms, i, relief, modulus)[i] == ms[i].(items := ms[i].items[1..])
    ensures Slot(i, Target(ms[i], NewWorry(ms[i], ms[i].items[0], relief, modulus)), |ms|) < |ms| - 1
    ensures Without(ms, i)[Slot(i, Target(ms[i], NewWorry(ms[i], ms[i].items[0], relief, modulus)), |ms|)]
         == ms[Target(ms[i], NewWorry(ms[i], ms[i].items[0], relief, modulus))]
    ensures Without(Throw(ms, i, relief, modulus), i)
         == Without(ms, i)[Slot(i, Target(ms[i], NewWorry(ms[i], ms[i].items[0], relief, modulus)), |ms|) :=
              ms[Target(ms[i], NewWorry(ms[i], ms[i].items[0], relief, modulus))].(items :=
                ms[Target(ms[i], NewWorry(ms[i], ms[i].items[0], relief, modulus))].items + [NewWorry(ms[i], ms[i].items[0], relief, modulus)])]
  {
    var w := NewWorry(ms[i], ms[i].items[0], relief, modulus);
    var t := Target(ms[i], w);
    var popped := ms[i := ms[i].(items := ms[i].items[1..])];
    SlotFinds(ms, i, t);
    WithoutUpdate(popped, i, t, ms[t].(items := ms[t].items + [w]));
    WithoutIgnores(ms, i, ms[i].(items := ms[i].items[1..]));
  }

  /** Monkey `i`, popped off the deque, inspects its first item and pushes it onto the target. */
  method ThrowItem(monkey: Monkey, monkeys: seq<Monkey>, i: nat, numMonkeys: nat, relief: nat, maxWorry: nat, ghost ms: seq<Monkey>)
    returns (popped: Monkey, rest: seq<Monkey>)
    requires Valid(ms) && i < |ms| && |ms[i].items| > 0 && relief > 0 && maxWorry > 0 && numMonkeys == |ms|
    requires monkey == ms[i] && monkeys == Without(ms, i)
    ensures popped == Throw(ms, i, relief, Some(maxWorry))[i]
    ensures rest == Without(Throw(ms, i, relief, Some(maxWorry)), i)
  {
    ThrowInDeque(ms, i, relief, Some(maxWorry));
    var item := monkey.items[0];
    popped := monkey.(items := monkey.items[1..]);
    item := (Apply(popped.operator, item, match popped.operand case Some(n) => n case None => item) / relief) % maxWorry;
    assert item == NewWorry(ms[i], ms[i].items[0], relief, Some(maxWorry));
    if item % popped.test == 0 {
      var idx := if i < popped.ifTrue then popped.ifTrue - 1 - i else popped.ifTrue + numMonkeys - 1 - i;
      rest := monkeys[idx := monkeys[idx].(items := monkeys[idx].items + [item])];
    } else {
      var idx := if i < popped.ifFalse then popped.ifFalse - 1 - i else popped.ifFalse + numMonkeys - 1 - i;
      rest := monkeys[idx := monkeys[idx].(items := monkeys[idx].items + [item])];
    }
  }

  /** Monkey `i`'s turn on the deque: pop it, throw each of its items, count each inspection, and
      push it back. */
  method PlayTurn(deque: seq<Monkey>, inspections: seq<nat>, i: nat, relief: nat, maxWorry: nat, ghost s: State)
    returns (after: seq<Monkey>, counts: seq<nat>)
    requires Good(s) && i < |s.monkeys| && relief > 0 && maxWorry > 0
    requires deque == Rotate(s.monkeys, i) && inspections == s.inspections
    ensures after == Rotate(PlayedTurn(s, i, relief, Some(maxWorry)).monkeys, i + 1)
    ensures counts == PlayedTurn(s, i, relief, Some(maxWorry)).inspections
  {
    ghost var ms := s.monkeys;
    var numMonkeys := |deque|;
    RotateParts(ms, i);
    var monkey := deque[0];
    var monkeys := deque[1..];
    counts := inspections;
    var count := |monkey.items|;
    ghost var thrown := ms;
    for k := 0 to count
      invariant thrown == Throws(ms, i, k, relief, Some(maxWorry))
      invariant monkey == thrown[i] && monkeys == Without(thrown, i)
      invariant counts == inspections[i := inspections[i] + k]
    {
      counts := counts[i := counts[i] + 1];
      monkey, monkeys := ThrowItem(monkey, monkeys, i, numMonkeys, relief, maxWorry, thrown);
      thrown := Throw(thrown, i, relief, Some(maxWorry));
    }
    after := monkeys + [monkey];
    RotateParts(thrown, i);
  }

  /** One round: every monkey in deque order takes its turn, which leaves the deque in its
      original order. */
  method PlayRound(deque: seq<Monkey>, inspections: seq<nat>, relief: nat, maxWorry: nat, ghost s: State)
    returns (after: seq<Monkey>, counts: seq<nat>)
    requires Good(s) && deque == s.monkeys && inspections == s.inspections && relief > 0 && maxWorry > 0
    ensures State(after, counts) == Round(s, relief, Some(maxWorry))
  {
    var numMonkeys := |deque|;
    after, counts := deque, inspections;
    RotateWhole(s.monkeys);
    ghost var played := s;
    for i := 0 to numMonkeys
      invariant played == Turns(s, i, relief, Some(maxWorry))
      invariant after == Rotate(played.monkeys, i) && counts == played.inspections
    {
      after, counts := PlayTurn(after, counts, i, relief, maxWorry, played);
      played := PlayedTurn(played, i, relief, Some(maxWorry));
      TurnsStep(s, i + 1, relief, Some(maxWorry));
    }
    RotateWhole(played.monkeys);
  }

  // ---------------------------------------------------------------------------------------------
  // `do_monkey_business`

  /** `vec![0; num_monkeys]`. */
  function Zeros(n: nat): (z: seq<nat>)
    ensures |z| == n && forall i | 0 <= i < n :: z[i] == 0
  {
    seq(n, _ => 0)
  }

  /** The two largest counts, largest first, with 0 standing in for a missing one. */
  function TopTwo(counts: seq<nat>): (nat, nat)
  {
    if counts == [] then (0, 0)
    else
      var (a, b) := TopTwo(counts[..|counts| - 1]);
      var x := counts[|counts| - 1];
      if x >= a then (x, a) else if x >= b then (a, x) else (a, b)
  }

  /** `inspections.sort(); inspections.into_iter().rev().take(2).fold(1, mul)`: the product of the
      (at most) two largest counts. */
  function MonkeyBusiness(counts: seq<nat>): nat
  {
    if |counts| == 0 then 1
    else if |counts| == 1 then counts[0]
    else TopTwo(counts).0 * TopTwo(counts).1
  }

  /** `TopTwo` picks two different positions: the largest count, and the largest of the others. */
  lemma {:induction false} TopTwoIndices(counts: seq<nat>) returns (i: nat, j: nat)
    requires |counts| >= 2
    ensures i < |counts| && j < |counts| && i != j
    ensures TopTwo(counts) == (counts[i], counts[j]) && counts[i] >= counts[j]
    ensures forall k | 0 <= k < |counts| && k != i && k != j :: counts[k] <= counts[j]
    decreases |counts|
  {
    var n := |counts|;
    var init := counts[..n - 1];
    var x := counts[n - 1];
    if n == 2 {
      assert init[..0] == [];
      assert TopTwo(init) == (counts[0], 0);
      if x >= counts[0] { i, j := 1, 0; } else { i, j := 0, 1; }
    } else {
      var i', j' := TopTwoIndices(init);
      assert forall k | 0 <= k < n - 1 :: init[k] == counts[k];
      if x >= counts[i'] {
        i, j := n - 1, i';
      } else if x >= counts[j'] {
        i, j := i', n - 1;
      } else {
        i, j := i', j';
      }
    }
  }

  /** With two or more monkeys, the level of monkey business multiplies the largest inspection
      count by the largest count of any other monkey. */
  lemma MonkeyBusinessMeaning(counts: seq<nat>) returns (i: nat, j: nat)
    requires |counts| >= 2
    ensures i < |counts| && j < |counts| && i != j && counts[i] >= counts[j]
    ensures MonkeyBusiness(counts) == counts[i] * counts[j]
    ensures forall k | 0 <= k < |counts| && k != i && k != j :: counts[k] <= counts[j]
  {
    i, j := TopTwoIndices(counts);
  }

  /** The state `do_monkey_business` starts from: the monkeys as parsed, no inspections yet. */
  function Start(monkeys: seq<Monkey>): (s: State)
    requires Valid(monkeys)
    ensures Good(s)
  {
    State(monkeys, Zeros(|monkeys|))
  }

  /** `do_monkey_business`: the rounds are played on the deque with every new worry level divided
      by `relief` and reduced modulo `max_worry`; the answer is the product of the two largest
      inspection counts. */
  method DoMonkeyBusiness(monkeys: seq<Monkey>, rounds: nat, relief: nat) returns (level: nat)
    requires Valid(monkeys) && relief > 0
    ensures level == MonkeyBusiness(Rounds(Start(monkeys), rounds, relief, Some(MaxWorry(monkeys))).inspections)
  {
    var numMonkeys := |monkeys|;
    var inspections := Zeros(numMonkeys);
    var maxWorry := MaxWorry(monkeys);
    var deque := monkeys;
    for r := 0 to rounds
      invariant State(deque, inspections) == Rounds(Start(monkeys), r, relief, Some(maxWorry))
    {
      deque, inspections := PlayRound(deque, inspections, relief, maxWorry, State(deque, inspections));
    }
    level := MonkeyBusiness(inspections);
  }

  /** `part_1`: twenty rounds, worry divided by three. */
  method Part1(monkeys: seq<Monkey>) returns (level: nat)
    requires Valid(monkeys)
    ensures level == MonkeyBusiness(Rounds(Start(monkeys), 20, 3, Some(MaxWorry(monkeys))).inspections)
  {
    level := DoMonkeyBusiness(monkeys, 20, 3);
  }

  /** `part_2`: ten thousand rounds, no relief. */
  method Part2(monkeys: seq<Monkey>) returns (level: nat)
    requires Valid(monkeys)
    ensures level == MonkeyBusiness(Rounds(Start(monkeys), 10_000, 1, Some(MaxWorry(monkeys))).inspections)
  {
    level := DoMonkeyBusiness(monkeys, 10_000, 1);
  }

  // ---------------------------------------------------------------------------------------------
  // Items are neither lost nor duplicated

  /** The number of items all monkeys hold. */
  function TotalItems(ms: seq<Monkey>): nat
  {
    if ms == [] then 0 else TotalItems(ms[..|ms| - 1]) + |ms[|ms| - 1].items|
  }

  lemma {:induction false} TotalItemsUpdate(ms: seq<Monkey>, i: nat, m: Monkey)
    requires i < |ms|
    ensures TotalItems(ms[i := m]) + |ms[i].items| == TotalItems(ms) + |m.items|
    decreases |ms|
  {
    var n := |ms|;
    if i < n - 1 {
      assert ms[i := m][..n - 1] == ms[..n - 1][i := m];
      TotalItemsUpdate(ms[..n - 1], i, m);
    } else {
      assert ms[i := m][..n - 1] == ms[..n - 1];
    }
  }

  /** A throw moves one item from one monkey to another. */
  lemma ThrowConserves(ms: seq<Monkey>, i: nat, relief: nat, modulus: Option<nat>)
    requires Valid(ms) && i < |ms| && |ms[i].items| > 0 && Reduction(relief, modulus)
    ensures TotalItems(Throw(ms, i, relief, modulus)) == TotalItems(ms)
  {
    var w := NewWorry(ms[i], ms[i].items[0], relief, modulus);
    var t := Target(ms[i], w);
    var popped := ms[i := ms[i].(items := ms[i].items[1..])];
    TotalItemsUpdate(ms, i, ms[i].(items := ms[i].items[1..]));
    TotalItemsUpdate(popped, t, popped[t].(items := popped[t].items + [w]));
  }

  lemma {:induction false} ThrowsConserve(ms: seq<Monkey>, i: nat, k: nat, relief: nat, modulus: Option<nat>)
    requires Valid(ms) && i < |ms| && k <= |ms[i].items| && Reduction(relief, modulus)
    ensures TotalItems(Throws(ms, i, k, relief, modulus)) == TotalItems(ms)
    decreases k
  {
    if k > 0 {
      ThrowsConserve(ms, i, k - 1, relief, modulus);
      ThrowConserves(Throws(ms, i, k - 1, relief, modulus), i, relief, modulus);
    }
  }

  lemma PlayedTurnConserves(s: State, i: nat, relief: nat, modulus: Option<nat>)
    requires Good(s) && i < |s.monkeys| && Reduction(relief, modulus)
    ensures TotalItems(PlayedTurn(s, i, relief, modulus).monkeys) == TotalItems(s.monkeys)
  {
    ThrowsConserve(s.monkeys, i, |s.monkeys[i].items|, relief, modulus);
  }

  lemma {:induction false} TurnsConserve(s: State, k: nat, relief: nat, modulus: Option<nat>)
    requires Good(s) && k <= |s.monkeys| && Reduction(relief, modulus)
    ensures TotalItems(Turns(s, k, relief, modulus).monkeys) == TotalItems(s.monkeys)
    decreases k
  {
    if k > 0 {
      var before := Turns(s, k - 1, relief, modulus);
      TurnsConserve(s, k - 1, relief, modulus);
      PlayedTurnConserves(before, k - 1, relief, modulus);
      TurnsStep(s, k, relief, modulus);
      var after := PlayedTurn(before, k - 1, relief, modulus);
      assert TotalItems(after.monkeys) == TotalItems(s.monkeys);
    }
  }

  /** However many rounds are played, the monkeys hold as many items as they started with. */
  lemma {:induction false} RoundsConserve(s: State, rounds: nat, relief: nat, modulus: Option<nat>)
    requires Good(s) && Reduction(relief, modulus)
    ensures TotalItems(Rounds(s, rounds, relief, modulus).monkeys) == TotalItems(s.monkeys)
    decreases rounds
  {
    if rounds > 0 {
      var r := Rounds(s, rounds - 1, relief, modulus);
      RoundsConserve(s, rounds - 1, relief, modulus);
      TurnsConserve(r, |r.monkeys|, relief, modulus);
      assert Rounds(s, rounds, relief, modulus) == Turns(r, |r.monkeys|, relief, modulus);
    }
  }

  // ---------------------------------------------------------------------------------------------
  // Reduced worry levels stay small

  /** Every item's worry level is below `m`. */
  ghost predicate ItemsBelow(ms: seq<Monkey>, m: nat)
  {
    forall i, k | 0 <= i < |ms| && 0 <= k < |ms[i].items| :: ms[i].items[k] < m
  }

  /** The operation on a worry level below `m`, with an operand below `m`, stays below `m * m`:
      with `max_worry` under 2^32 it fits the source's `u64`. */
  lemma OperatedBelow(mk: Monkey, item: nat, m: nat)
    requires item < m && (mk.operand.Some? ==> mk.operand.value < m)
    ensures Operated(mk, item) < m * m
  {
    var n := match mk.operand case Some(n) => n case None => item;
    if mk.operator == Mul {
      MulStrict(item, n, m);
    } else if m >= 2 {
      assert 2 * m <= m * m;
    }
  }

  lemma MulStrict(a: nat, b: nat, m: nat)
    requires a < m && b < m
    ensures a * b < m * m
  {
    assert a * b <= a * m;
    assert a * m < m * m;
  }

  /** A throw with reduction modulo `m` keeps every worry level below `m`. */
  lemma ThrowStaysBelow(ms: seq<Monkey>, i: nat, relief: nat, m: nat)
    requires Valid(ms) && i < |ms| && |ms[i].items| > 0 && relief > 0 && m > 0 && ItemsBelow(ms, m)
    ensures ItemsBelow(Throw(ms, i, relief, Some(m)), m)
  {
    var next := Throw(ms, i, relief, Some(m));
    var w := NewWorry(ms[i], ms[i].items[0], relief, Some(m));
    var t := Target(ms[i], w);
    var popped := ms[i := ms[i].(items := ms[i].items[1..])];
    assert next == popped[t := popped[t].(items := popped[t].items + [w])];
    forall j, k | 0 <= j < |next| && 0 <= k < |next[j].items| ensures next[j].items[k] < m {
      if j == t && k == |popped[t].items| {
        assert next[j].items[k] == w;
      } else if j == i {
        assert next[j].items[k] == ms[i].items[k + 1];
      } else {
        assert next[j].items[k] == ms[j].items[k];
      }
    }
  }

  lemma {:induction false} ThrowsStayBelow(ms: seq<Monkey>, i: nat, k: nat, relief: nat, m: nat)
    requires Valid(ms) && i < |ms| && k <= |ms[i].items| && relief > 0 && m > 0 && ItemsBelow(ms, m)
    ensures ItemsBelow(Throws(ms, i, k, relief, Some(m)), m)
    decreases k
  {
    if k > 0 {
      ThrowsStayBelow(ms, i, k - 1, relief, m);
      ThrowStaysBelow(Throws(ms, i, k - 1, relief, Some(m)), i, relief, m);
    }
  }

  lemma {:induction false} TurnsStayBelow(s: State, k: nat, relief: nat, m: nat)
    requires Good(s) && k <= |s.monkeys| && relief > 0 && m > 0 && ItemsBelow(s.monkeys, m)
    ensures ItemsBelow(Turns(s, k, relief, Some(m)).monkeys, m)
    decreases k
  {
    if k > 0 {
      var before := Turns(s, k - 1, relief, Some(m));
      TurnsStayBelow(s, k - 1, relief, m);
      ThrowsStayBelow(before.monkeys, k - 1, |before.monkeys[k - 1].items|, relief, m);
      TurnsStep(s, k, relief, Some(m));
    }
  }

  /** With every worry level reduced modulo `m`, levels that start below `m` stay below it for any
      number of rounds, so each operation stays below `m * m` (`OperatedBelow`). */
  lemma {:induction false} RoundsStayBelow(s: State, rounds: nat, relief: nat, m: nat)
    requires Good(s) && relief > 0 && m > 0 && ItemsBelow(s.monkeys, m)
    ensures ItemsBelow(Rounds(s, rounds, relief, Some(m)).monkeys, m)
    decreases rounds
  {
    if rounds > 0 {
      var r := Rounds(s, rounds - 1, relief, Some(m));
      RoundsStayBelow(s, rounds - 1, relief, m);
      TurnsStayBelow(r, |r.monkeys|, relief, m);
      assert Rounds(s, rounds, relief, Some(m)) == Turns(r, |r.monkeys|, relief, Some(m));
    }
  }

  // ---------------------------------------------------------------------------------------------
  // Reducing modulo `max_worry` changes no decision

  /** `(M * q + r) % M == r % M`. */
  lemma ModAddMultiple(m: int, q: int, r: int)
    requires m > 0
    ensures (m * q + r) % m == r % m
  {
    assert r == m * (r / m) + r % m;
    assert m * q + r == m * (q + r / m) + r % m;
    DivModUnique(m * q + r, m, q + r / m, r % m);
  }

  /** Congruent operands give congruent sums and products. */
  lemma ApplyCongruent(op: Op, a: nat, b: nat, c: nat, d: nat, m: nat)
    requires m > 0 && a % m == c % m && b % m == d % m
    ensures Apply(op, a, b) % m == Apply(op, c, d) % m
  {
    match op
    case Add =>
      AddReduce(a, b, m);
      AddReduce(c, d, m);
    case Mul =>
      MulReduce(a, b, m);
      MulReduce(c, d, m);
  }

  lemma AddReduce(a: nat, b: nat, m: nat)
    requires m > 0
    ensures (a + b) % m == (a % m + b % m) % m
  {
    var qa, r, qb, s := a / m, a % m, b / m, b % m;
    assert a == m * qa + r && b == m * qb + s;
    assert a + b == m * (qa + qb) + (r + s);
    ModAddMultiple(m, qa + qb, r + s);
  }

  lemma MulReduce(a: nat, b: nat, m: nat)
    requires m > 0
    ensures (a * b) % m == ((a % m) * (b % m)) % m
  {
    var qa, r, qb, s := a / m, a % m, b / m, b % m;
    assert a == m * qa + r && b == m * qb + s;
    ProductSplit(m, qa, r, qb, s);
    assert a * b == m * (qa * m * qb + qa * s + r * qb) + r * s;
    ModAddMultiple(m, qa * m * qb + qa * s + r * qb, r * s);
  }

  lemma ProductSplit(m: int, p: int, r: int, q: int, s: int)
    ensures (m * p + r) * (m * q + s) == m * (p * m * q + p * s + r * q) + r * s
  {
  }

  /** A multiple of `t` reduced modulo `t * k` is still a multiple of `t`, and only then. */
  lemma DivisorOfModulus(x: nat, y: nat, t: nat, m: nat)
    requires t > 0 && m > 0 && m % t == 0 && x % m == y % m
    ensures x % t == 0 <==> y % t == 0
  {
    var k := m / t;
    assert m == t * k by { DivModUnique(m, t, m / t, 0); }
    ResidueOfMultiple(x, t, k, m);
    ResidueOfMultiple(y, t, k, m);
  }

  /** Modulo a divisor `t` of `m`, a number leaves the remainder its residue modulo `m` leaves. */
  lemma ResidueOfMultiple(x: nat, t: nat, k: nat, m: nat)
    requires t > 0 && m > 0 && m == t * k
    ensures x % t == (x % m) % t
  {
    var q := x / m;
    assert x == m * q + x % m;
    assert m * q == t * (k * q);
    ModAddMultiple(t, k * q, x % m);
  }

  /** Two lists of worry levels that agree item by item modulo `m`. */
  ghost predicate ItemsCongruent(xs: seq<nat>, ys: seq<nat>, m: nat)
  {
    m > 0 && |xs| == |ys| && forall k | 0 <= k < |xs| :: SameResidue(xs[k], ys[k], m)
  }

  /** `x` and `y` leave the same remainder modulo `m`. */
  predicate SameResidue(x: nat, y: nat, m: nat)
  {
    m > 0 && x % m == y % m
  }

  /** Two monkeys with the same rules whose items agree modulo `m`, which their test divides. */
  ghost predicate MonkeyCongruent(x: Monkey, y: Monkey, m: nat)
  {
    x.(items := []) == y.(items := []) && x.test > 0 && m % x.test == 0 && ItemsCongruent(x.items, y.items, m)
  }

  /** Two deques of monkeys with the same rules, the same number of items each, and worry levels
      that agree modulo `m`; every test divides `m`. */
  ghost predicate Congruent(a: seq<Monkey>, b: seq<Monkey>, m: nat)
  {
    m > 0 && Valid(a) && |a| == |b| && forall i {:trigger MonkeyCongruent(a[i], b[i], m)} | 0 <= i < |a| :: MonkeyCongruent(a[i], b[i], m)
  }

  /** Monkeys with equal rules agree on every rule. */
  lemma SameRules(x: Monkey, y: Monkey)
    requires x.(items := []) == y.(items := [])
    ensures x.operator == y.operator && x.operand == y.operand && x.test == y.test
    ensures x.ifTrue == y.ifTrue && x.ifFalse == y.ifFalse
  {
    assert x.(items := []).operator == y.(items := []).operator;
    assert x.(items := []).operand == y.(items := []).operand;
    assert x.(items := []).test == y.(items := []).test;
    assert x.(items := []).ifTrue == y.(items := []).ifTrue;
    assert x.(items := []).ifFalse == y.(items := []).ifFalse;
  }

  /** Replacing one monkey of each deque by congruent monkeys with the old rules keeps the deques
      congruent. */
  lemma CongruentUpdate(a: seq<Monkey>, b: seq<Monkey>, m: nat, j: nat, x: Monkey, y: Monkey)
    requires Congruent(a, b, m) && j < |a| && MonkeyCongruent(x, y, m) && x.(items := []) == a[j].(items := [])
    ensures Congruent(a[j := x], b[j := y], m)
  {
    SameRules(x, a[j]);
  }

  /** The rules of congruent deques are equally valid. */
  lemma ValidCongruent(a: seq<Monkey>, b: seq<Monkey>, m: nat)
    requires Congruent(a, b, m)
    ensures Valid(b)
  {
    forall i | 0 <= i < |b|
      ensures b[i].test > 0 && b[i].ifTrue < |b| && b[i].ifFalse < |b| && b[i].ifTrue != i && b[i].ifFalse != i
    {
      assert MonkeyCongruent(a[i], b[i], m);
      SameRules(a[i], b[i]);
    }
  }

  /** With no relief, the new worry levels of congruent items are congruent, and the item goes to
      the same monkey whether or not it was reduced. */
  lemma WorryCongruent(x: Monkey, y: Monkey, m: nat, v: nat, w: nat)
    requires MonkeyCongruent(x, y, m) && v % m == w % m
    ensures NewWorry(x, v, 1, Some(m)) % m == NewWorry(y, w, 1, None) % m
    ensures Target(x, NewWorry(x, v, 1, Some(m))) == Target(y, NewWorry(y, w, 1, None))
  {
    SameRules(x, y);
    var n := match x.operand case Some(n) => n case None => v;
    var n' := match y.operand case Some(n) => n case None => w;
    ApplyCongruent(x.operator, v, n, w, n', m);
    ModMod(Operated(x, v), m);
    DivisorOfModulus(NewWorry(x, v, 1, Some(m)), NewWorry(y, w, 1, None), x.test, m);
  }

  /** With no relief, a throw with reduction and one without go to the same monkey and keep the
      worry levels congruent. */
  lemma ThrowCongruent(a: seq<Monkey>, b: seq<Monkey>, m: nat, i: nat)
    requires Congruent(a, b, m) && i < |a| && |a[i].items| > 0
    ensures Valid(b) && |b[i].items| == |a[i].items|
    ensures Congruent(Throw(a, i, 1, Some(m)), Throw(b, i, 1, None), m)
  {
    ValidCongruent(a, b, m);
    assert MonkeyCongruent(a[i], b[i], m);
    var wa, wb := NewWorry(a[i], a[i].items[0], 1, Some(m)), NewWorry(b[i], b[i].items[0], 1, None);
    WorryCongruent(a[i], b[i], m, a[i].items[0], b[i].items[0]);
    var t := Target(a[i], wa);
    var pa, pb := a[i].(items := a[i].items[1..]), b[i].(items := b[i].items[1..]);
    assert MonkeyCongruent(pa, pb, m);
    CongruentUpdate(a, b, m, i, pa, pb);
    var a1, b1 := a[i := pa], b[i := pb];
    assert MonkeyCongruent(a1[t], b1[t], m);
    var qa, qb := a1[t].(items := a1[t].items + [wa]), b1[t].(items := b1[t].items + [wb]);
    assert MonkeyCongruent(qa, qb, m);
    CongruentUpdate(a1, b1, m, t, qa, qb);
    assert Throw(a, i, 1, Some(m)) == a1[t := qa];
    assert Throw(b, i, 1, None) == b1[t := qb];
  }

  lemma ModMod(x: nat, m: nat)
    requires m > 0
    ensures (x % m) % m == x % m
  {
    DivModUnique(x % m, m, 0, x % m);
  }

  lemma {:induction false} ThrowsCongruent(a: seq<Monkey>, b: seq<Monkey>, m: nat, i: nat, k: nat)
    requires Congruent(a, b, m) && i < |a| && k <= |a[i].items|
    ensures Valid(b) && k <= |b[i].items|
    ensures Congruent(Throws(a, i, k, 1, Some(m)), Throws(b, i, k, 1, None), m)
    decreases k
  {
    ValidCongruent(a, b, m);
    assert MonkeyCongruent(a[i], b[i], m);
    if k > 0 {
      ThrowsCongruent(a, b, m, i, k - 1);
      ThrowCongruent(Throws(a, i, k - 1, 1, Some(m)), Throws(b, i, k - 1, 1, None), m, i);
    }
  }

  /** Two states whose deques are congruent modulo `m` and whose inspection counts agree. */
  ghost predicate CongruentStates(s: State, u: State, m: nat)
  {
    Good(s) && Good(u) && Congruent(s.monkeys, u.monkeys, m) && s.inspections == u.inspections
  }

  /** One monkey's turn on congruent deques. */
  lemma PlayedTurnCongruent(s: State, u: State, m: nat, i: nat)
    requires CongruentStates(s, u, m) && i < |s.monkeys|
    ensures CongruentStates(PlayedTurn(s, i, 1, Some(m)), PlayedTurn(u, i, 1, None), m)
  {
    assert MonkeyCongruent(s.monkeys[i], u.monkeys[i], m);
    ThrowsCongruent(s.monkeys, u.monkeys, m, i, |s.monkeys[i].items|);
  }

  /** The first `k` turns of a round keep the deques congruent. */
  lemma {:induction false} TurnsCongruent(s: State, u: State, m: nat, k: nat)
    requires CongruentStates(s, u, m) && k <= |s.monkeys|
    ensures CongruentStates(Turns(s, k, 1, Some(m)), Turns(u, k, 1, None), m)
    decreases k
  {
    if k > 0 {
      TurnsCongruent(s, u, m, k - 1);
      PlayedTurnCongruent(Turns(s, k - 1, 1, Some(m)), Turns(u, k - 1, 1, None), m, k - 1);
    }
  }

  /** With no relief (`part_2`), reducing every worry level modulo a common multiple of the tests
      sends every item to the same monkeys as the unreduced levels would, so the inspection counts
      are the same; the worry levels only ever differ by multiples of `m`. */
  lemma {:induction false} ReductionKeepsInspections(s: State, m: nat, rounds: nat)
    requires Good(s) && m > 0 && forall i | 0 <= i < |s.monkeys| :: m % s.monkeys[i].test == 0
    ensures Rounds(s, rounds, 1, Some(m)).inspections == Rounds(s, rounds, 1, None).inspections
    ensures Congruent(Rounds(s, rounds, 1, Some(m)).monkeys, Rounds(s, rounds, 1, None).monkeys, m)
    decreases rounds
  {
    if rounds == 0 {
      assert Congruent(s.monkeys, s.monkeys, m);
    } else {
      var a, b := Rounds(s, rounds - 1, 1, Some(m)), Rounds(s, rounds - 1, 1, None);
      ReductionKeepsInspections(s, m, rounds - 1);
      TurnsCongruent(a, b, m, |a.monkeys|);
      assert Rounds(s, rounds, 1, Some(m)) == Turns(a, |a.monkeys|, 1, Some(m));
      assert Rounds(s, rounds, 1, None) == Turns(b, |b.monkeys|, 1, None);
    }
  }

  /** `max_worry` is a common multiple of the tests, so `part_2`'s reduction is harmless. */
  lemma MaxWorryKeepsInspections(monkeys: seq<Monkey>, rounds: nat)
    requires Valid(monkeys)
    ensures Rounds(Start(monkeys), rounds, 1, Some(MaxWorry(monkeys))).inspections
         == Rounds(Start(monkeys), rounds, 1, None).inspections
  {
    forall i | 0 <= i < |monkeys| ensures MaxWorry(monkeys) % monkeys[i].test == 0 {
      MaxWorryDivisible(monkeys, i);
    }
    ReductionKeepsInspections(Start(monkeys), MaxWorry(monkeys), rounds);
  }

  // ---------------------------------------------------------------------------------------------
  // `monkeys_from_file`: fixed offsets into each block of six lines

  /** The operator symbol after `new = old `. */
  function ParseOperator(s: string): Option<Op>
  {
    if s == "*" then Some(Mul) else if s == "+" then Some(Add) else None
  }

  /** The operand: `old` is the item itself, anything else must be a number. */
  function ParseOperand(s: string): Option<Option<nat>>
  {
    if s == "old" then Some(None)
    else match ParseNat(s) case Some(n) => Some(Some(n)) case None => None
  }

  /** One monkey from its block of lines: the items from byte 18 of line 1, the operation from
      byte 23 of line 2, the test from byte 21 of line 3, and the two targets from bytes 29 and 30
      of lines 4 and 5. `None` where the source panics: a missing line, a line too short to slice,
      an unknown operator, or a field that does not parse. */
  function ParseMonkey(block: string): Option<Monkey>
  {
    var lines := Split(block, "\n");
    if |lines| < 6 || |lines[1]| < 18 || |lines[2]| < 23 || |lines[3]| < 21 || |lines[4]| < 29 || |lines[5]| < 30 then None
    else
      match (ParseEach(ParseNat, Split(lines[1][18..], ", ")), SplitOnce(lines[2][23..], " "),
             ParseNat(lines[3][21..]), ParseNat(lines[4][29..]), ParseNat(lines[5][30..]))
      case (Some(items), Some((opText, argText)), Some(test), Some(ifTrue), Some(ifFalse)) =>
        (match (ParseOperator(opText), ParseOperand(argText))
         case (Some(op), Some(operand)) => Some(Monkey(items, op, operand, test, ifTrue, ifFalse))
         case _ => None)
      case _ => None
  }

  /** `monkeys_from_file` on the text of the file: blocks separated by a blank line. */
  function MonkeysFromText(text: string): Option<seq<Monkey>>
  {
    ParseEach(ParseMonkey, Split(text, "\n\n"))
  }

  /** The decimal renderings of the items. */
  function ShowItems(items: seq<nat>): (parts: seq<string>)
    ensures |parts| == |items|
  {
    if items == [] then [] else [ShowNat(items[0])] + ShowItems(items[1..])
  }

  lemma {:induction false} ParseShowItems(items: seq<nat>)
    ensures ParseEach(ParseNat, ShowItems(items)) == Some(items)
    ensures forall i | 0 <= i < |items| :: ShowItems(items)[i] == ShowNat(items[i])
    decreases |items|
  {
    if items != [] {
      ParseShowItems(items[1..]);
      ParseShowNat(items[0]);
      assert ShowItems(items)[1..] == ShowItems(items[1..]);
      assert [items[0]] + items[1..] == items;
    }
  }

  function ShowOperator(op: Op): string
  {
    match op case Mul => "*" case Add => "+"
  }

  function ShowOperand(operand: Option<nat>): string
  {
    match operand case None => "old" case Some(n) => ShowNat(n)
  }

  /** The six lines a monkey is written as in the puzzle input. */
  function MonkeyLines(k: nat, m: Monkey): (lines: seq<string>)
    requires |m.items| > 0
    ensures |lines| == 6
  {
    ["Monkey " + ShowNat(k) + ":",
     "  Starting items: " + Join(ShowItems(m.items), ", "),
     "  Operation: new = old " + ShowOperator(m.operator) + " " + ShowOperand(m.operand),
     "  Test: divisible by " + ShowNat(m.test),
     "    If true: throw to monkey " + ShowNat(m.ifTrue),
     "    If false: throw to monkey " + ShowNat(m.ifFalse)]
  }

  /** The block of monkey number `k` as the puzzle input writes it. */
  function RenderMonkey(k: nat, m: Monkey): string
    requires |m.items| > 0
  {
    Join(MonkeyLines(k, m), "\n")
  }

  lemma {:induction false} JoinLacks(parts: seq<string>, sep: string, c: char)
    requires |parts| >= 1 && Lacks(sep, c) && forall i | 0 <= i < |parts| :: Lacks(parts[i], c)
    ensures Lacks(Join(parts, sep), c)
    decreases |parts|
  {
    if |parts| > 1 {
      LacksRest(parts, c);
      JoinLacks(parts[1..], sep, c);
      LacksJoined(parts[0], sep, Join(parts[1..], sep), c);
    }
  }

  lemma LacksAfter(prefix: string, s: string, c: char)
    requires Lacks(prefix, c) && Lacks(s, c)
    ensures Lacks(prefix + s, c)
  {
    LacksJoined(prefix, "", s, c);
    assert prefix + "" + s == prefix + s;
  }

  /** No line of a rendered monkey holds a line break. */
  lemma MonkeyLinesLack(k: nat, m: Monkey)
    requires |m.items| > 0
    ensures forall i | 0 <= i < 6 :: Lacks(MonkeyLines(k, m)[i], '\n')
  {
    var lines := MonkeyLines(k, m);
    var items := Join(ShowItems(m.items), ", ");
    forall i | 0 <= i < |m.items| ensures Lacks(ShowItems(m.items)[i], '\n') {
      ParseShowItems(m.items);
      ShowNatLacks(m.items[i], '\n');
    }
    JoinLacks(ShowItems(m.items), ", ", '\n');
    ShowNatLacks(k, '\n');
    ShowNatLacks(m.test, '\n');
    ShowNatLacks(m.ifTrue, '\n');
    ShowNatLacks(m.ifFalse, '\n');
    var operand := ShowOperand(m.operand);
    assert Lacks(operand, '\n') by {
      if m.operand.Some? { ShowNatLacks(m.operand.value, '\n'); }
    }
    LacksJoined("Monkey " + ShowNat(k), "", ":", '\n');
    assert "Monkey " + ShowNat(k) + "" + ":" == lines[0];
    LacksAfter("Monkey ", ShowNat(k), '\n');
    LacksAfter("  Starting items: ", items, '\n');
    LacksJoined("  Operation: new = old " + ShowOperator(m.operator), " ", operand, '\n');
    LacksAfter("  Test: divisible by ", ShowNat(m.test), '\n');
    LacksAfter("    If true: throw to monkey ", ShowNat(m.ifTrue), '\n');
    LacksAfter("    If false: throw to monkey ", ShowNat(m.ifFalse), '\n');
  }

  /** The fields sit at the byte offsets `monkeys_from_file` slices at. */
  lemma MonkeyLinesFields(k: nat, m: Monkey)
    requires |m.items| > 0
    ensures |MonkeyLines(k, m)[1]| >= 18 && MonkeyLines(k, m)[1][18..] == Join(ShowItems(m.items), ", ")
    ensures |MonkeyLines(k, m)[2]| >= 23 && MonkeyLines(k, m)[2][23..] == ShowOperator(m.operator) + " " + ShowOperand(m.operand)
    ensures |MonkeyLines(k, m)[3]| >= 21 && MonkeyLines(k, m)[3][21..] == ShowNat(m.test)
    ensures |MonkeyLines(k, m)[4]| >= 29 && MonkeyLines(k, m)[4][29..] == ShowNat(m.ifTrue)
    ensures |MonkeyLines(k, m)[5]| >= 30 && MonkeyLines(k, m)[5][30..] == ShowNat(m.ifFalse)
  {
  }

  /** The operation field splits into the operator and an operand that parse back. */
  lemma ParseShowOperation(op: Op, operand: Option<nat>)
    ensures SplitOnce(ShowOperator(op) + " " + ShowOperand(operand), " ") == Some((ShowOperator(op), ShowOperand(operand)))
    ensures ParseOperator(ShowOperator(op)) == Some(op)
    ensures ParseOperand(ShowOperand(operand)) == Some(operand)
  {
    var text := ShowOperand(operand);
    if operand.Some? {
      ParseShowNat(operand.value);
      ShowNatDigits(operand.value);
      ShowNatLacks(operand.value, ' ');
      assert text != "old" by { assert IsDigit(text[0]); }
    }
    assert Lacks(text, ' ');
    SplitOnceAt(ShowOperator(op), " ", text);
  }

  /** Reading a rendered monkey back gives the monkey, whatever its number. */
  lemma ParseRenderMonkey(k: nat, m: Monkey)
    requires |m.items| > 0
    ensures ParseMonkey(RenderMonkey(k, m)) == Some(m)
  {
    var lines := MonkeyLines(k, m);
    MonkeyLinesLack(k, m);
    assert forall i | 0 <= i < 6 :: Lacks(lines[i], "\n"[0]);
    SplitJoin(lines, "\n");
    MonkeyLinesFields(k, m);
    ParseShowItems(m.items);
    forall i | 0 <= i < |m.items| ensures Lacks(ShowItems(m.items)[i], ',') {
      ShowNatLacks(m.items[i], ',');
    }
    SplitJoin(ShowItems(m.items), ", ");
    ParseShowOperation(m.operator, m.operand);
    ParseShowNat(m.test);
    ParseShowNat(m.ifTrue);
    ParseShowNat(m.ifFalse);
  }

  /** A monkey without items cannot be read back: `"".parse()` fails. */
  lemma EmptyItemsRejected(block: string)
    requires |Split(block, "\n")| >= 6 && |Split(block, "\n")[1]| == 18
    ensures ParseMonkey(block) == None
  {
    var rest := Split(block, "\n")[1][18..];
    assert rest == "";
    assert Split(rest, ", ") == [""];
    assert ParseNat("") == None;
  }

  /** The four monkeys `test_monkeys_from_file` expects from `test11.txt`. */
  function ExampleMonkeys(): seq<Monkey>
  {
    [Monkey([79, 98], Mul, Some(19), 23, 2, 3),
     Monkey([54, 65, 75, 74], Add, Some(6), 19, 2, 0),
     Monkey([79, 60, 97], Mul, None, 13, 1, 3),
     Monkey([74], Add, Some(3), 17, 0, 1)]
  }

  /** The example's rules can be run, and its `max_worry` is 23 * 19 * 13 * 17. */
  lemma ExampleMonkeysValid()
    ensures Valid(ExampleMonkeys()) && MaxWorry(ExampleMonkeys()) == 96577
  {
    var ms := ExampleMonkeys();
    assert ms[..1][..0] == [];
    assert MaxWorry(ms[..1]) == 23;
    assert ms[..2][..1] == ms[..1];
    assert MaxWorry(ms[..2]) == 23 * 19;
    assert ms[..3][..2] == ms[..2];
    assert MaxWorry(ms[..3]) == 23 * 19 * 13;
    assert ms[..4][..3] == ms[..3] && ms[..4] == ms;
  }
}
