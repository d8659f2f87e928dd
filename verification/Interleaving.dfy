/** Cores that share a matrix but keep to entries of their own: how their accesses interleave makes no difference. */
module Interleaving {
  import opened Matrices
  import opened Tiles

  /** The next access of a core. */
  datatype Action<D> = Read(k: nat) | Write(k: nat, v: D) | Halt

  /** What a core does next follows from the values it has read and written so far. */
  type Program<!D> = seq<D> -> Action<D>

  /** The shared memory as a core finds it, and the values it has read and written. */
  datatype Core<D> = Core(mem: seq<D>, log: seq<D>)

  function Step<D>(f: Program<D>, s: Core<D>): (t: Core<D>)
    ensures |t.mem| == |s.mem|
  {
    match f(s.log)
    case Read(k) => if k < |s.mem| then Core(s.mem, s.log + [s.mem[k]]) else s
    case Write(k, v) => if k < |s.mem| then Core(s.mem[k := v], s.log + [v]) else s
    case Halt => s
  }

  /** The first n steps of a core that runs alone. */
  function Alone<D>(f: Program<D>, mem: seq<D>, n: nat): (s: Core<D>)
    ensures |s.mem| == |mem|
  {
    if n == 0 then Core(mem, []) else Step(f, Alone(f, mem, n - 1))
  }

  /** The shared memory, and the log of every core. */
  datatype System<D> = System(mem: seq<D>, logs: seq<seq<D>>)

  predicate IsSchedule(schedule: seq<nat>, ncores: nat) { forall i :: 0 <= i < |schedule| ==> schedule[i] < ncores }

  /** The cores take their steps in the order of the schedule. */
  function Run<D>(fs: seq<Program<D>>, mem: seq<D>, schedule: seq<nat>): (s: System<D>)
    requires IsSchedule(schedule, |fs|)
    ensures |s.mem| == |mem| && |s.logs| == |fs|
  {
    if schedule == [] then System(mem, seq(|fs|, i => []))
    else
      var n := |schedule| - 1;
      var s := Run(fs, mem, schedule[..n]);
      var t := Step(fs[schedule[n]], Core(s.mem, s.logs[schedule[n]]));
      System(t.mem, s.logs[schedule[n] := t.log])
  }

  /** How often core x is scheduled. */
  function Turns(schedule: seq<nat>, x: nat): nat {
    if schedule == [] then 0
    else Turns(schedule[..|schedule| - 1], x) + if schedule[|schedule| - 1] == x then 1 else 0
  }

  /** Whatever it has read, core x touches only what it owns. */
  ghost predicate KeepsTo<D(!new)>(f: Program<D>, owner: nat -> nat, x: nat) {
    forall log: seq<D> :: !f(log).Halt? ==> owner(f(log).k) == x
  }

  /** Two memories that agree on what core x owns. */
  ghost predicate Agree<D>(m: seq<D>, m': seq<D>, owner: nat -> nat, x: nat) {
    |m| == |m'| && forall k: nat :: k < |m| && owner(k) == x ==> m[k] == m'[k]
  }

  /** A core's own step changes both alike. */
  lemma OwnStep<D(!new)>(f: Program<D>, owner: nat -> nat, x: nat, s: Core<D>, a: Core<D>)
    requires KeepsTo(f, owner, x) && s.log == a.log && Agree(s.mem, a.mem, owner, x)
    ensures Step(f, s).log == Step(f, a).log && Agree(Step(f, s).mem, Step(f, a).mem, owner, x) == true
  {
    assert !f(s.log).Halt? ==> owner(f(s.log).k) == x;
  }

  /** The step of another core changes nothing there. */
  lemma ForeignStep<D(!new)>(f: Program<D>, owner: nat -> nat, x: nat, y: nat, s: Core<D>, m: seq<D>)
    requires KeepsTo(f, owner, y) && x != y && Agree(s.mem, m, owner, x)
    ensures Agree(Step(f, s).mem, m, owner, x) == true
  {
    assert !f(s.log).Halt? ==> owner(f(s.log).k) == y;
  }

  /** In any interleaving every core reads and leaves on its own entries what it reads and leaves there when alone. */
  lemma {:induction false} AsIfAlone<D(!new)>(fs: seq<Program<D>>, owner: nat -> nat, mem: seq<D>, schedule: seq<nat>, x: nat)
    requires IsSchedule(schedule, |fs|) && x < |fs| && forall y: nat :: y < |fs| ==> KeepsTo(fs[y], owner, y)
    ensures var s, a := Run(fs, mem, schedule), Alone(fs[x], mem, Turns(schedule, x));
            s.logs[x] == a.log && Agree(s.mem, a.mem, owner, x)
  {
    if schedule != [] {
      var n := |schedule| - 1;
      AsIfAlone(fs, owner, mem, schedule[..n], x);
      var s, a, y := Run(fs, mem, schedule[..n]), Alone(fs[x], mem, Turns(schedule[..n], x)), schedule[n];
      if y == x {
        OwnStep(fs[x], owner, x, Core(s.mem, s.logs[x]), a);
        assert Alone(fs[x], mem, Turns(schedule, x)) == Step(fs[x], a);
      } else {
        ForeignStep(fs[y], owner, x, y, Core(s.mem, s.logs[y]), a.mem);
      }
    }
  }

  /** A core that has halted stays where it is. */
  lemma {:induction false} HaltedStays<D>(f: Program<D>, mem: seq<D>, n: nat, m: nat)
    requires n <= m && f(Alone(f, mem, n).log).Halt?
    ensures Alone(f, mem, m) == Alone(f, mem, n)
  {
    if n < m {
      HaltedStays(f, mem, n, m - 1);
    }
  }

  /** On the entries of core x the memory holds C + A*B. */
  ghost predicate DoneBy<D>(p: Problem<D>, m: seq<D>, owner: nat -> nat, x: nat) {
    && p.Valid() && |m| == Size(p.lda)
    && forall r: nat, c: nat :: r < p.lda && c < p.lda && Flat(p.lda, r, c) < |m| && owner(Flat(p.lda, r, c)) == x ==>
         m[Flat(p.lda, r, c)] == p.Result(r, c)
  }

  /**
   * Cores that alone, and from the same C, would each halt with their own entries of C + A*B do so in every interleaving
   * that lets each of them finish.
   */
  lemma Together<D(!new)>(p: Problem<D>, fs: seq<Program<D>>, owner: nat -> nat, schedule: seq<nat>, steps: seq<nat>)
    requires p.Valid() && IsSchedule(schedule, |fs|) && |steps| == |fs|
    requires forall k: nat :: k < Size(p.lda) ==> owner(k) < |fs|
    requires forall y: nat :: y < |fs| ==> KeepsTo(fs[y], owner, y)
    requires forall y: nat :: y < |fs| ==>
               && fs[y](Alone(fs[y], p.C, steps[y]).log).Halt? && DoneBy(p, Alone(fs[y], p.C, steps[y]).mem, owner, y)
               && steps[y] <= Turns(schedule, y)
    ensures IsResult(p, Run(fs, p.C, schedule).mem)
  {
    var m := Run(fs, p.C, schedule).mem;
    forall r: nat, c: nat | r < p.lda && c < p.lda
      ensures Flat(p.lda, r, c) < |m| && m[Flat(p.lda, r, c)] == p.Result(r, c)
    {
      FlatInRange(p.lda, r, c);
      var x := owner(Flat(p.lda, r, c));
      AsIfAlone(fs, owner, p.C, schedule, x);
      HaltedStays(fs[x], p.C, steps[x], Turns(schedule, x));
    }
  }
}
