/**
  `mapPool` of `lib/async-pool.ts`: several loops share the counter `next` and the output array. A
  loop runs alone between two `await`s; which one runs next is left open.
*/
module WorkerPool {
  import opened Text

  /** A loop is at its head, awaits the worker, has returned, or has thrown the worker's error. */
  datatype Loop = Idle | Working(index: nat) | Returned | Threw(index: nat)

  /** The items, and what the worker makes of each: `None` when its promise rejects. */
  datatype Task<!T, R> = Task(items: seq<T>, work: (T, nat) -> Option<R>) {
    function Result(i: nat): Option<R>
      requires i < |items|
    {
      work(items[i], i)
    }

    ghost predicate Succeeds() {
      forall i :: 0 <= i < |items| ==> Result(i).Some?
    }
  }

  datatype State<R> = State(next: nat, loops: seq<Loop>, out: seq<Option<R>>)

  function Initial<R>(n: nat, limit: nat): State<R> {
    State(0, seq(limit, _ => Idle), seq(n, _ => None))
  }

  /** `const index = next++; if (index >= items.length) return;` and the call of the worker. */
  function Claim<R>(s: State<R>, l: nat): State<R>
    requires l < |s.loops|
  {
    s.(next := s.next + 1, loops := s.loops[l := if s.next >= |s.out| then Returned else Working(s.next)])
  }

  /** The worker's promise settles: `out[index] = ...`, or the loop throws. */
  function Finish<T, R>(t: Task<T, R>, s: State<R>, l: nat): State<R>
    requires |s.out| == |t.items|
    requires l < |s.loops| && s.loops[l].Working? && s.loops[l].index < |t.items|
  {
    var i := s.loops[l].index;
    if t.Result(i).Some? then s.(out := s.out[i := t.Result(i)], loops := s.loops[l := Idle])
    else s.(loops := s.loops[l := Threw(i)])
  }

  predicate Enabled(loop: Loop) {
    loop.Idle? || loop.Working?
  }

  function Advance<T, R>(t: Task<T, R>, s: State<R>, l: nat): State<R>
    requires |s.out| == |t.items| && l < |s.loops| && Enabled(s.loops[l])
    requires s.loops[l].Working? ==> s.loops[l].index < |t.items|
  {
    if s.loops[l].Idle? then Claim(s, l) else Finish(t, s, l)
  }

  // ---------- the invariant ----------

  /** The loop has taken index i from the counter and not yet written its result. */
  predicate Holds(loop: Loop, i: nat) {
    loop == Working(i) || loop == Threw(i)
  }

  function Count(loops: seq<Loop>, p: Loop -> bool): nat {
    if loops == [] then 0 else (if p(loops[0]) then 1 else 0) + Count(loops[1..], p)
  }

  const IsWorking: Loop -> bool := (l: Loop) => l.Working?
  const IsReturned: Loop -> bool := (l: Loop) => l.Returned?

  ghost predicate Inv<T, R>(t: Task<T, R>, s: State<R>) {
    && |s.out| == |t.items|
    // the counter overshoots by one for every loop that has returned
    && (if s.next <= |t.items| then Count(s.loops, IsReturned) == 0
        else s.next == |t.items| + Count(s.loops, IsReturned))
    // what a loop holds was handed out, and to no other loop
    && (forall l :: 0 <= l < |s.loops| && s.loops[l].Working? ==>
          s.loops[l].index < |t.items| && s.loops[l].index < s.next)
    && (forall l :: 0 <= l < |s.loops| && s.loops[l].Threw? ==>
          s.loops[l].index < |t.items| && s.loops[l].index < s.next && t.Result(s.loops[l].index).None?)
    && (forall k, l :: 0 <= k < |s.loops| && 0 <= l < |s.loops| && k != l ==> !Clash(s.loops[k], s.loops[l]))
    // an index is written, held, or not handed out yet
    && (forall i :: 0 <= i < |t.items| ==> Accounted(t, s, i))
  }

  predicate Clash(a: Loop, b: Loop) {
    (a.Working? || a.Threw?) && (b.Working? || b.Threw?) && a.index == b.index
  }

  ghost predicate Accounted<T, R>(t: Task<T, R>, s: State<R>, i: nat)
    requires i < |t.items| && |s.out| == |t.items|
  {
    if s.out[i].Some? then
      i < s.next && s.out[i] == t.Result(i) && forall l :: 0 <= l < |s.loops| ==> !Holds(s.loops[l], i)
    else
      i < s.next ==> exists l :: 0 <= l < |s.loops| && Holds(s.loops[l], i)
  }

  lemma {:induction false} CountUpdate(loops: seq<Loop>, l: nat, x: Loop, p: Loop -> bool)
    requires l < |loops|
    ensures Count(loops[l := x], p) == Count(loops, p) - (if p(loops[l]) then 1 else 0) + (if p(x) then 1 else 0)
  {
    if l == 0 {
      assert loops[l := x][1..] == loops[1..];
    } else {
      assert loops[l := x][1..] == loops[1..][l - 1 := x];
      CountUpdate(loops[1..], l - 1, x, p);
    }
  }

  lemma {:induction false} CountNone(loops: seq<Loop>, p: Loop -> bool)
    requires forall l :: 0 <= l < |loops| ==> !p(loops[l])
    ensures Count(loops, p) == 0
  {
    if loops != [] {
      CountNone(loops[1..], p);
    }
  }

  lemma {:induction false} CountBound(loops: seq<Loop>, p: Loop -> bool)
    ensures Count(loops, p) <= |loops|
    ensures Count(loops, p) == 0 ==> forall l :: 0 <= l < |loops| ==> !p(loops[l])
  {
    if loops != [] {
      CountBound(loops[1..], p);
    }
  }

  lemma InitialInv<T, R>(t: Task<T, R>, limit: nat)
    ensures Inv(t, Initial<R>(|t.items|, limit))
  {
    CountNone(Initial<R>(|t.items|, limit).loops, IsReturned);
  }

  lemma ClaimKeepsInv<T, R>(t: Task<T, R>, s: State<R>, l: nat)
    requires Inv(t, s) && l < |s.loops| && s.loops[l].Idle?
    ensures Inv(t, Claim(s, l))
  {
    var d := Claim(s, l);
    CountUpdate(s.loops, l, d.loops[l], IsReturned);
    CountBound(s.loops, IsReturned);
    forall i | 0 <= i < |t.items|
      ensures Accounted(t, d, i)
    {
      assert Accounted(t, s, i);
      if i == s.next {
        assert Holds(d.loops[l], i);
      } else if s.out[i].None? && i < s.next {
        var k :| 0 <= k < |s.loops| && Holds(s.loops[k], i);
        assert Holds(d.loops[k], i);
      }
    }
  }

  lemma FinishKeepsInv<T, R>(t: Task<T, R>, s: State<R>, l: nat)
    requires Inv(t, s) && l < |s.loops| && s.loops[l].Working?
    ensures Inv(t, Finish(t, s, l))
  {
    var d := Finish(t, s, l);
    var i := s.loops[l].index;
    CountUpdate(s.loops, l, d.loops[l], IsReturned);
    forall j | 0 <= j < |t.items|
      ensures Accounted(t, d, j)
    {
      assert Accounted(t, s, j);
      if j == i {
        if t.Result(i).None? {
          assert Holds(d.loops[l], i);
        } else {
          forall k | 0 <= k < |d.loops|
            ensures !Holds(d.loops[k], i)
          {
            assert k != l ==> !Clash(s.loops[k], s.loops[l]);
          }
        }
      } else if s.out[j].None? && j < s.next {
        var k :| 0 <= k < |s.loops| && Holds(s.loops[k], j);
        assert Holds(d.loops[k], j);
      }
    }
  }

  // ---------- termination and progress ----------

  function Measure<R>(s: State<R>): int {
    2 * (|s.out| + |s.loops| - s.next) + Count(s.loops, IsWorking)
  }

  /** The counter never passes the number of items plus the number of loops; at most `limit` items are in flight. */
  lemma Bounds<T, R>(t: Task<T, R>, s: State<R>)
    requires Inv(t, s)
    ensures s.next <= |t.items| + |s.loops|
    ensures Count(s.loops, IsWorking) <= |s.loops|
    ensures Measure(s) >= 0
  {
    CountBound(s.loops, IsReturned);
    CountBound(s.loops, IsWorking);
  }

  lemma MeasureFalls<T, R>(t: Task<T, R>, s: State<R>, l: nat)
    requires Inv(t, s) && l < |s.loops| && Enabled(s.loops[l])
    ensures var d := Advance(t, s, l); Inv(t, d) && |d.loops| == |s.loops| && 0 <= Measure(d) < Measure(s)
  {
    var d := Advance(t, s, l);
    CountUpdate(s.loops, l, d.loops[l], IsWorking);
    if s.loops[l].Idle? {
      ClaimKeepsInv(t, s, l);
    } else {
      FinishKeepsInv(t, s, l);
    }
    Bounds(t, d);
  }

  // ---------- runs ----------

  /** The loops in the order in which they get to run. */
  ghost predicate IsRun<T, R>(t: Task<T, R>, s: State<R>, turns: seq<nat>, end: State<R>)
    decreases |turns|
  {
    if turns == [] then s == end
    else
      && |s.out| == |t.items| && turns[0] < |s.loops| && Enabled(s.loops[turns[0]])
      && (s.loops[turns[0]].Working? ==> s.loops[turns[0]].index < |t.items|)
      && IsRun(t, Advance(t, s, turns[0]), turns[1..], end)
  }

  /** The indices claimed in a run, in order. */
  function Claims<T, R>(t: Task<T, R>, s: State<R>, turns: seq<nat>, end: State<R>): seq<nat>
    requires IsRun(t, s, turns, end)
    decreases |turns|
  {
    if turns == [] then []
    else
      (if s.loops[turns[0]].Idle? && s.next < |t.items| then [s.next] else [])
      + Claims(t, Advance(t, s, turns[0]), turns[1..], end)
  }

  function Upto(a: nat, b: nat): seq<nat> {
    if a < b then seq(b - a, i requires 0 <= i => a + i) else []
  }

  /** What one turn does to the counter. */
  lemma TurnCounts<T, R>(t: Task<T, R>, s: State<R>, l: nat)
    requires Inv(t, s) && l < |s.loops| && Enabled(s.loops[l])
    ensures s.loops[l].Working? ==> s.loops[l].index < |t.items|
    ensures Advance(t, s, l).next == if s.loops[l].Idle? then s.next + 1 else s.next
  {
    MeasureFalls(t, s, l);
  }

  /** A run keeps the invariant and is short. */
  lemma {:induction false} RunKeepsInv<T, R>(t: Task<T, R>, s: State<R>, turns: seq<nat>, end: State<R>)
    requires Inv(t, s) && IsRun(t, s, turns, end)
    ensures Inv(t, end) && |end.loops| == |s.loops| && s.next <= end.next
    ensures |turns| <= Measure(s) - Measure(end)
    decreases |turns|
  {
    if turns != [] {
      MeasureFalls(t, s, turns[0]);
      TurnCounts(t, s, turns[0]);
      RunKeepsInv(t, Advance(t, s, turns[0]), turns[1..], end);
    }
  }

  /** A turn claims the first of the indices that are still to come, or none. */
  lemma OneClaim(idle: bool, next: nat, n: nat, last: nat)
    requires (if idle then next + 1 else next) <= last
    ensures (if idle && next < n then [next] else []) + Upto(if idle then next + 1 else next, Min(last, n))
         == Upto(next, Min(last, n))
  {
    UptoStep(next, Min(last, n));
  }

  /** It hands out the indices one by one in order. */
  lemma {:induction false} RunClaims<T, R>(t: Task<T, R>, s: State<R>, turns: seq<nat>, end: State<R>)
    requires Inv(t, s) && IsRun(t, s, turns, end)
    ensures s.next <= end.next && Claims(t, s, turns, end) == Upto(s.next, Min(end.next, |t.items|))
    decreases |turns|
  {
    if turns != [] {
      MeasureFalls(t, s, turns[0]);
      TurnCounts(t, s, turns[0]);
      RunClaims(t, Advance(t, s, turns[0]), turns[1..], end);
      OneClaim(s.loops[turns[0]].Idle?, s.next, |t.items|, end.next);
    }
  }

  /** A run keeps the invariant, hands out the indices one by one in order, and is short. */
  lemma RunFacts<T, R>(t: Task<T, R>, s: State<R>, turns: seq<nat>, end: State<R>)
    requires Inv(t, s) && IsRun(t, s, turns, end)
    ensures Inv(t, end) && |end.loops| == |s.loops|
    ensures Claims(t, s, turns, end) == Upto(s.next, Min(end.next, |t.items|))
    ensures s.next <= end.next
    ensures |turns| <= Measure(s) - Measure(end)
  {
    RunKeepsInv(t, s, turns, end);
    RunClaims(t, s, turns, end);
  }

  lemma UptoStep(a: nat, b: nat)
    ensures a < b ==> Upto(a, b) == [a] + Upto(a + 1, b)
    ensures a >= b ==> Upto(a, b) == Upto(a + 1, b) == []
  {
  }

  /** No loop can run any more. */
  predicate Quiet<R>(s: State<R>) {
    forall l :: 0 <= l < |s.loops| ==> !Enabled(s.loops[l])
  }

  predicate AllReturned<R>(s: State<R>) {
    forall l :: 0 <= l < |s.loops| ==> s.loops[l].Returned?
  }

  lemma {:induction false} AllCounted(loops: seq<Loop>)
    requires forall l :: 0 <= l < |loops| ==> loops[l].Returned?
    ensures Count(loops, IsReturned) == |loops|
  {
    if loops != [] {
      AllCounted(loops[1..]);
    }
  }

  /** When every loop has returned, every result is in its place. */
  lemma ReturnedIsComplete<T, R>(t: Task<T, R>, s: State<R>)
    requires Inv(t, s) && s.loops != [] && AllReturned(s)
    ensures t.Succeeds() && forall i :: 0 <= i < |t.items| ==> s.out[i] == t.Result(i)
  {
    AllCounted(s.loops);
    forall i | 0 <= i < |t.items|
      ensures s.out[i] == t.Result(i) && t.Result(i).Some?
    {
      assert Accounted(t, s, i);
    }
  }

  /** A run that has come to rest has all loops returned exactly when no worker fails. */
  lemma QuietIff<T, R>(t: Task<T, R>, s: State<R>)
    requires Inv(t, s) && s.loops != [] && Quiet(s)
    ensures AllReturned(s) <==> t.Succeeds()
  {
    if AllReturned(s) {
      ReturnedIsComplete(t, s);
    } else {
      var l :| 0 <= l < |s.loops| && !s.loops[l].Returned?;
      assert s.loops[l].Threw?;
    }
  }

  /** The whole story of every schedule from the start to rest. */
  lemma EverySchedule<T, R>(t: Task<T, R>, limit: nat, turns: seq<nat>, end: State<R>)
    requires limit > 0 && IsRun(t, Initial<R>(|t.items|, limit), turns, end)
    ensures |turns| <= 2 * (|t.items| + limit)
    ensures end.next <= |t.items| + limit && |end.loops| == limit && |end.out| == |t.items|
    ensures Count(end.loops, IsWorking) <= limit
    ensures Claims(t, Initial<R>(|t.items|, limit), turns, end) == Upto(0, Min(end.next, |t.items|))
    ensures Quiet(end) && t.Succeeds() ==> forall i :: 0 <= i < |t.items| ==> end.out[i] == t.Result(i)
    ensures Quiet(end) && !t.Succeeds() ==> !AllReturned(end)
  {
    var s := Initial<R>(|t.items|, limit);
    InitialInv(t, limit);
    RunFacts(t, s, turns, end);
    Bounds(t, end);
    CountNone(s.loops, IsWorking);
    if Quiet(end) {
      QuietIff(t, end);
      if AllReturned(end) {
        ReturnedIsComplete(t, end);
      }
    }
  }

  // ---------- the first failure ----------

  /** The index whose worker throws as the loop advances. */
  function ThrownBy<T, R>(t: Task<T, R>, s: State<R>, l: nat): Option<nat>
    requires l < |s.loops| && (s.loops[l].Working? ==> s.loops[l].index < |t.items|)
  {
    if s.loops[l].Working? && t.Result(s.loops[l].index).None? then Some(s.loops[l].index) else None
  }

  /** The index whose worker is the first to throw in a run: there and then `Promise.all` rejects. */
  function FirstThrown<T, R>(t: Task<T, R>, s: State<R>, turns: seq<nat>, end: State<R>): Option<nat>
    requires IsRun(t, s, turns, end)
    decreases |turns|
  {
    if turns == [] then None
    else
      var threw := ThrownBy(t, s, turns[0]);
      if threw.Some? then threw else FirstThrown(t, Advance(t, s, turns[0]), turns[1..], end)
  }

  /** The loops go on after a failure; what rejected the call stays what it was. */
  lemma {:induction false} RunGoesOn<T, R>(t: Task<T, R>, s: State<R>, turns: seq<nat>, mid: State<R>,
                                           more: seq<nat>, end: State<R>)
    requires IsRun(t, s, turns, mid) && IsRun(t, mid, more, end)
    ensures IsRun(t, s, turns + more, end)
    ensures FirstThrown(t, s, turns + more, end)
         == if FirstThrown(t, s, turns, mid).Some? then FirstThrown(t, s, turns, mid)
            else FirstThrown(t, mid, more, end)
    decreases |turns|
  {
    if turns == [] {
      assert turns + more == more;
    } else {
      assert (turns + more)[1..] == turns[1..] + more;
      RunGoesOn(t, Advance(t, s, turns[0]), turns[1..], mid, more, end);
    }
  }

  lemma OneTurn<T, R>(t: Task<T, R>, s: State<R>, l: nat)
    requires Inv(t, s) && l < |s.loops| && Enabled(s.loops[l])
    ensures s.loops[l].Working? ==> s.loops[l].index < |t.items|
    ensures IsRun(t, s, [l], Advance(t, s, l))
    ensures FirstThrown(t, s, [l], Advance(t, s, l)) == ThrownBy(t, s, l)
  {
    assert [l][1..] == [];
  }

  /** After these turns from the start no worker has failed. */
  ghost predicate Unharmed<T, R>(t: Task<T, R>, start: State<R>, turns: seq<nat>, s: State<R>) {
    && Inv(t, s) && (forall l :: 0 <= l < |s.loops| ==> !s.loops[l].Threw?)
    && IsRun(t, start, turns, s) && FirstThrown(t, start, turns, s).None?
  }

  /** The call is rejected: in the last of these turns a loop has thrown for `index`, and no other loop has. */
  ghost predicate Rejected<T, R>(t: Task<T, R>, start: State<R>, turns: seq<nat>, s: State<R>, index: nat) {
    && Inv(t, s) && IsRun(t, start, turns, s) && FirstThrown(t, start, turns, s) == Some(index)
    && turns != [] && OnlyThrew(s.loops, turns[|turns| - 1], index)
  }

  predicate OnlyThrew(loops: seq<Loop>, l: nat, index: nat) {
    l < |loops| && loops[l] == Threw(index) && forall k :: 0 <= k < |loops| && k != l ==> !loops[k].Threw?
  }

  /** What is known after some turns, `failed` being what the call was rejected with, if anything. */
  ghost predicate After<T, R>(t: Task<T, R>, start: State<R>, turns: seq<nat>, s: State<R>, failed: Option<nat>) {
    if failed.None? then Unharmed(t, start, turns, s) else Rejected(t, start, turns, s, failed.value)
  }

  lemma TurnHarms<T, R>(t: Task<T, R>, start: State<R>, turns: seq<nat>, s: State<R>, l: nat)
    requires Unharmed(t, start, turns, s) && l < |s.loops| && Enabled(s.loops[l])
    ensures s.loops[l].Working? ==> s.loops[l].index < |t.items|
    ensures After(t, start, turns + [l], Advance(t, s, l), ThrownBy(t, s, l))
  {
    var d, more := Advance(t, s, l), turns + [l];
    OneTurn(t, s, l);
    MeasureFalls(t, s, l);
    RunGoesOn(t, start, turns, s, [l], d);
    assert more[|more| - 1] == l;
  }

  /** The turn at which the call is rejected: no loop has thrown before, and this one throws. */
  lemma {:induction false} RejectsAtFirst<T, R>(t: Task<T, R>, s: State<R>, turns: seq<nat>, end: State<R>)
    returns (k: nat, mid: State<R>)
    requires IsRun(t, s, turns, end) && FirstThrown(t, s, turns, end).Some?
    ensures k < |turns| && IsRun(t, s, turns[..k], mid) && FirstThrown(t, s, turns[..k], mid).None?
    ensures turns[k] < |mid.loops| && mid.loops[turns[k]] == Working(FirstThrown(t, s, turns, end).value)
    ensures FirstThrown(t, s, turns, end).value < |t.items|
    ensures t.Result(FirstThrown(t, s, turns, end).value).None?
    decreases |turns|
  {
    if ThrownBy(t, s, turns[0]).Some? {
      k, mid := 0, s;
    } else {
      var d := Advance(t, s, turns[0]);
      k, mid := RejectsAtFirst(t, d, turns[1..], end);
      k := k + 1;
      assert turns[..k][1..] == turns[1..][..k - 1];
    }
  }

  /** Two items, of which the first fails: the call is rejected while the second is still to be worked on. */
  lemma OthersStillRun<T, R>(t: Task<T, R>) returns (turns: seq<nat>, mid: State<R>)
    requires |t.items| == 2 && t.Result(0).None? && t.Result(1).Some?
    ensures IsRun(t, Initial<R>(2, 2), turns, mid) && FirstThrown(t, Initial<R>(2, 2), turns, mid) == Some(0)
    ensures |mid.loops| == 2 && mid.loops[1].Idle? && mid.next == 1
  {
    var start := Initial<R>(2, 2);
    InitialInv(t, 2);
    MeasureFalls(t, start, 0);
    var one := Advance(t, start, 0);
    OneTurn(t, start, 0);
    OneTurn(t, one, 0);
    mid := Advance(t, one, 0);
    turns := [0] + [0];
    RunGoesOn(t, start, [0], one, [0], mid);
  }

  /** Every run can go on until all loops are over. */
  lemma {:induction false} RunsOut<T, R>(t: Task<T, R>, s: State<R>) returns (turns: seq<nat>, end: State<R>)
    requires Inv(t, s)
    ensures IsRun(t, s, turns, end) && Quiet(end)
    decreases Measure(s) + 1
  {
    Bounds(t, s);
    if l :| 0 <= l < |s.loops| && Enabled(s.loops[l]) {
      MeasureFalls(t, s, l);
      TurnCounts(t, s, l);
      turns, end := RunsOut(t, Advance(t, s, l));
      turns := [l] + turns;
    } else {
      turns, end := [], s;
    }
  }

  /**
    A rejection is final, and stops no loop: whatever the loops still do leaves the index that the call was
    rejected with, and they can go on until all are over.
  */
  lemma RejectionIsFinal<T, R>(t: Task<T, R>, start: State<R>, turns: seq<nat>, s: State<R>, index: nat)
    requires Rejected(t, start, turns, s, index)
    ensures index < |t.items| && t.Result(index).None?
    ensures forall more, end :: IsRun(t, s, more, end) ==>
              IsRun(t, start, turns + more, end) && FirstThrown(t, start, turns + more, end) == Some(index)
    ensures exists more, end :: IsRun(t, s, more, end) && Quiet(end)
  {
    forall more, end | IsRun(t, s, more, end)
      ensures IsRun(t, start, turns + more, end) && FirstThrown(t, start, turns + more, end) == Some(index)
    {
      RunGoesOn(t, start, turns, s, more, end);
    }
    var more, end := RunsOut(t, s);
    assert IsRun(t, s, more, end) && Quiet(end);
  }

  // ---------- the pool itself ----------

  class Pool<T, R> {
    const task: Task<T, R>
    const out: array<Option<R>>
    const loops: array<Loop>
    var next: nat

    function View(): State<R>
      reads this, out, loops
    {
      State(next, loops[..], out[..])
    }

    constructor (task: Task<T, R>, limit: nat)
      ensures this.task == task && fresh(out) && fresh(loops)
      ensures View() == Initial(|task.items|, limit)
    {
      this.task := task;
      this.out := new Option<R>[|task.items|](_ => None);
      this.loops := new Loop[limit](_ => Idle);
      next := 0;
      new;
      assert out[..] == Initial<R>(|task.items|, limit).out;
      assert loops[..] == Initial<R>(|task.items|, limit).loops;
    }

    /** A loop at its head takes the next index. */
    method TakeIndex(l: nat)
      requires l < loops.Length && out.Length == |task.items|
      modifies this`next, loops
      ensures View() == Claim(old(View()), l)
    {
      var index := next;
      next := next + 1;
      if index >= |task.items| {
        loops[l] := Returned;
      } else {
        loops[l] := Working(index);
      }
    }

    /** The worker of a loop is done. */
    method StoreResult(l: nat)
      requires l < loops.Length && out.Length == |task.items|
      requires loops[l].Working? && loops[l].index < |task.items|
      modifies loops, out
      ensures View() == Finish(task, old(View()), l)
    {
      var index := loops[l].index;
      var result := task.work(task.items[index], index);
      if result.Some? {
        out[index] := result;
        loops[l] := Idle;
      } else {
        loops[l] := Threw(index);
      }
    }

    /** A loop runs until it waits again or is over. */
    method Turn(l: nat) returns (threw: Option<nat>)
      requires l < loops.Length && out.Length == |task.items|
      requires Enabled(loops[l]) && (loops[l].Working? ==> loops[l].index < |task.items|)
      modifies this`next, loops, out
      ensures View() == Advance(task, old(View()), l)
      ensures threw == ThrownBy(task, old(View()), l)
    {
      if loops[l].Idle? {
        TakeIndex(l);
        return None;
      }
      var index := loops[l].index;
      StoreResult(l);
      threw := if loops[l].Threw? then Some(index) else None;
    }
  }

  /** The loops that are started: at least one, at most one for each item. */
  function LimitOf(n: nat, concurrency: int): nat {
    Max(1, Min(concurrency, n))
  }

  /** As many loops as wanted, but one at least and no more than there are items. */
  lemma LimitIs(n: nat, concurrency: int)
    requires n > 0
    ensures concurrency < 1 ==> LimitOf(n, concurrency) == 1
    ensures 1 <= concurrency <= n ==> LimitOf(n, concurrency) == concurrency
    ensures concurrency > n ==> LimitOf(n, concurrency) == n
  {
  }

  /** At no moment are more items worked on than wanted. */
  lemma NoMoreThanWanted<T, R>(t: Task<T, R>, concurrency: int, turns: seq<nat>, s: State<R>)
    requires t.items != [] && concurrency >= 1
    requires IsRun(t, Initial<R>(|t.items|, LimitOf(|t.items|, concurrency)), turns, s)
    ensures Count(s.loops, IsWorking) <= concurrency
  {
    EverySchedule(t, LimitOf(|t.items|, concurrency), turns, s);
  }

  /** The loops run in some order until all of them are over or one of them throws. */
  method RunLoops<T, R>(pool: Pool<T, R>, ghost start: State<R>) returns (failed: Option<nat>, ghost turns: seq<nat>)
    requires pool.View() == start && Inv(pool.task, start)
    requires forall l :: 0 <= l < |start.loops| ==> !start.loops[l].Threw?
    modifies pool, pool.loops, pool.out
    ensures After(pool.task, start, turns, pool.View(), failed)
    ensures failed.None? ==> Quiet(pool.View())
  {
    failed, turns := None, [];
    ghost var s := start;
    Bounds(pool.task, s);
    while failed.None? && exists l :: 0 <= l < pool.loops.Length && Enabled(pool.loops[l])
      invariant s == pool.View()
      invariant After(pool.task, start, turns, s, failed)
      decreases Measure(s)
    {
      var l :| 0 <= l < pool.loops.Length && Enabled(pool.loops[l]);
      failed := RunOne(pool, l, start, turns);
      s, turns := pool.View(), turns + [l];
    }
  }

  method RunOne<T, R>(pool: Pool<T, R>, l: nat, ghost start: State<R>, ghost turns: seq<nat>)
    returns (failed: Option<nat>)
    requires Unharmed(pool.task, start, turns, pool.View())
    requires l < pool.loops.Length && Enabled(pool.loops[l])
    modifies pool, pool.loops, pool.out
    ensures After(pool.task, start, turns + [l], pool.View(), failed)
    ensures 0 <= Measure(pool.View()) < old(Measure(pool.View()))
  {
    MeasureFalls(pool.task, pool.View(), l);
    TurnHarms(pool.task, start, turns, pool.View(), l);
    failed := pool.Turn(l);
  }

  lemma UnharmedEnd<T, R>(t: Task<T, R>, start: State<R>, turns: seq<nat>, end: State<R>)
    requires Inv(t, start) && start.loops != [] && Unharmed(t, start, turns, end) && Quiet(end)
    ensures |end.out| == |t.items| && t.Succeeds()
    ensures forall i :: 0 <= i < |t.items| ==> end.out[i].Some? && end.out[i] == t.Result(i)
  {
    RunKeepsInv(t, start, turns, end);
    assert AllReturned(end);
    ReturnedIsComplete(t, end);
  }

  /**
    The call under any schedule: the results once all loops have returned, or, at the very turn at which the
    first worker fails, its index. The ghost results are the turns up to there and the state they leave.
  */
  method MapPool<T, R>(task: Task<T, R>, concurrency: int)
    returns (r: Result<seq<R>, nat>, ghost turns: seq<nat>, ghost end: State<R>)
    ensures r.Ok? <==> task.Succeeds()
    ensures r.Ok? ==> |r.value| == |task.items|
    ensures r.Ok? ==> forall i :: 0 <= i < |task.items| ==> task.Result(i) == Some(r.value[i])
    ensures r.Err? ==> r.error < |task.items| && task.Result(r.error).None?
    ensures r.Ok? && task.items != [] ==>
      IsRun(task, Initial<R>(|task.items|, LimitOf(|task.items|, concurrency)), turns, end) && AllReturned(end)
    ensures r.Err? ==>
      Rejected(task, Initial<R>(|task.items|, LimitOf(|task.items|, concurrency)), turns, end, r.error)
  {
    turns, end := [], Initial<R>(0, 0);
    if |task.items| == 0 {
      return Ok([]), turns, end;
    }
    var limit := LimitOf(|task.items|, concurrency);
    var pool := new Pool<T, R>(task, limit);
    ghost var start := pool.View();
    InitialInv(task, limit);
    var failed;
    failed, turns := RunLoops(pool, start);
    end := pool.View();
    if failed.Some? {
      return Err(failed.value), turns, end;
    }
    UnharmedEnd(task, start, turns, end);
    var out := pool.out[..];
    r := Ok(seq(|task.items|, i requires 0 <= i < |out| && out[i].Some? => out[i].value));
  }
}
