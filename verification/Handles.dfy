/** Lending compiled handles from a pool, in the interleavings of any number of
    goroutines, and replacing the pattern they were compiled from. */
module Handles {
  import opened Basics

  /** What a handle is compiled from: expression, flags and limits. */
  type Config = nat

  type Handle = nat

  /** A goroutine that was given a handle and has not released it. */
  datatype Loan = Loan(borrower: nat, handle: Handle)

  /** The value's configuration, the handles lying in its pool, the loans, and what every
      handle made so far was compiled from. */
  datatype State = State(config: Config, pool: set<Handle>, loans: set<Loan>, made: map<Handle, Config>)

  datatype Move =
    | Take(g: nat, h: Handle)      // acquire finds a pooled handle
    | Compile(g: nat, h: Handle)   // acquire is given none, whatever the pool holds, and compiles
    | Return(g: nat, h: Handle)    // release
    | Drop(h: Handle)              // the pool forgets a handle
    | Replace(config: Config, left: set<Handle>)  // UnmarshalText; left is what the drain missed

  predicate Enabled(s: State, m: Move) {
    match m
    case Take(_, h) => h in s.pool
    case Compile(_, h) => h !in s.made
    case Return(g, h) => Loan(g, h) in s.loans
    case Drop(h) => h in s.pool
    case Replace(_, left) => left <= s.pool
  }

  function After(s: State, m: Move): State {
    match m
    case Take(g, h) => s.(pool := s.pool - {h}, loans := s.loans + {Loan(g, h)})
    case Compile(g, h) => s.(loans := s.loans + {Loan(g, h)}, made := s.made[h := s.config])
    case Return(g, h) => s.(pool := s.pool + {h}, loans := s.loans - {Loan(g, h)})
    case Drop(h) => s.(pool := s.pool - {h})
    case Replace(config, left) => s.(pool := left, config := config)
  }

  predicate OneBorrower(s: State) {
    forall l, l' :: l in s.loans && l' in s.loans && l.handle == l'.handle ==> l == l'
  }

  /** No handle has two borrowers, or a borrower while it lies in the pool, and all were
      made. */
  predicate Apart(s: State) {
    && OneBorrower(s)
    && (forall l :: l in s.loans ==> l.handle !in s.pool && l.handle in s.made)
    && s.pool <= s.made.Keys
  }

  /** Every handle in circulation was compiled from the value's present configuration. */
  predicate Current(s: State) {
    && (forall h :: h in s.pool ==> h in s.made && s.made[h] == s.config)
    && (forall l :: l in s.loans ==> l.handle in s.made && s.made[l.handle] == s.config)
  }

  /** The value as Compile leaves it: its first handle in the pool. */
  function Compiled(config: Config, h: Handle): State {
    State(config, {h}, {}, map[h := config])
  }

  /** Does the move leave no handle behind that was compiled from another configuration?
      Replacing does so if the configuration stays what it was, or if nothing is on loan and
      the drain empties the pool. */
  predicate Harmless(s: State, m: Move) {
    m.Replace? ==> m.config == s.config || (s.loans == {} && m.left == {})
  }

  lemma MoveKeepsIff(s: State, m: Move)
    requires Apart(s) && Current(s) && Enabled(s, m)
    ensures Apart(After(s, m))
    ensures Current(After(s, m)) <==> Harmless(s, m)
  {
    if m.Replace? && m.config != s.config && Current(After(s, m)) {
      assert forall l :: l !in s.loans;
      assert forall h :: h !in m.left;
    }
  }

  function RunFrom(s: State, moves: seq<Move>, n: nat): State
    requires n <= |moves|
  {
    if n == 0 then s else After(RunFrom(s, moves, n - 1), moves[n - 1])
  }

  /** Can the first n moves be made one after the other? */
  predicate Possible(s: State, moves: seq<Move>, n: nat)
    requires n <= |moves|
  {
    n == 0 || (Possible(s, moves, n - 1) && Enabled(RunFrom(s, moves, n - 1), moves[n - 1]))
  }

  predicate AllCurrent(s: State, moves: seq<Move>, n: nat)
    requires n <= |moves|
  {
    Current(RunFrom(s, moves, n)) && (n == 0 || AllCurrent(s, moves, n - 1))
  }

  predicate AllHarmless(s: State, moves: seq<Move>, n: nat)
    requires n <= |moves|
  {
    n == 0 || (AllHarmless(s, moves, n - 1) && Harmless(RunFrom(s, moves, n - 1), moves[n - 1]))
  }

  /** In every run, no handle ever has two borrowers, or is lent while it lies in the pool;
      and every handle in circulation was compiled from the value's configuration, all the
      way, exactly when every replacement on the way was harmless. */
  lemma {:induction false} EveryRunLendsCurrentIff(s: State, moves: seq<Move>, n: nat)
    requires Apart(s) && Current(s) && n <= |moves| && Possible(s, moves, n)
    ensures Apart(RunFrom(s, moves, n))
    ensures AllCurrent(s, moves, n) <==> AllHarmless(s, moves, n)
  {
    if n > 0 {
      EveryRunLendsCurrentIff(s, moves, n - 1);
      var before := RunFrom(s, moves, n - 1);
      ApartStays(before, moves[n - 1]);
      if Current(before) {
        MoveKeepsIff(before, moves[n - 1]);
      }
    }
  }

  /** That is every run of every compiled value. */
  lemma CompiledValueLendsCurrentIff(config: Config, h: Handle, moves: seq<Move>)
    requires Possible(Compiled(config, h), moves, |moves|)
    ensures forall n :: 0 <= n <= |moves| ==> Apart(RunFrom(Compiled(config, h), moves, n))
    ensures AllCurrent(Compiled(config, h), moves, |moves|) <==> AllHarmless(Compiled(config, h), moves, |moves|)
  {
    var s := Compiled(config, h);
    assert Apart(s) && Current(s);
    EveryRunLendsCurrentIff(s, moves, |moves|);
    forall n | 0 <= n <= |moves|
      ensures Apart(RunFrom(s, moves, n))
    {
      PossibleSoFar(s, moves, n, |moves|);
      EveryRunLendsCurrentIff(s, moves, n);
    }
  }

  lemma {:induction false} PossibleSoFar(s: State, moves: seq<Move>, n: nat, end: nat)
    requires n <= end <= |moves| && Possible(s, moves, end)
    ensures Possible(s, moves, n)
    decreases end - n
  {
    if n < end {
      PossibleSoFar(s, moves, n, end - 1);
    }
  }

  lemma ApartStays(s: State, m: Move)
    requires Apart(s) && Enabled(s, m)
    ensures Apart(After(s, m))
  {
  }

  /** What goes wrong otherwise: a handle on loan while the pattern is replaced comes back
      to the pool, and is lent again, still compiled from what was replaced. */
  lemma StaleHandleComesBack(config: Config, config': Config, h: Handle, g: nat)
    requires config' != config
    ensures var s, moves := Compiled(config, h), [Take(g, h), Replace(config', {}), Return(g, h), Take(g, h)];
            Possible(s, moves, 4)
            && var end := RunFrom(s, moves, 4);
               end.config == config' && Loan(g, h) in end.loans && h in end.made && end.made[h] == config
  {
    var s, moves := Compiled(config, h), [Take(g, h), Replace(config', {}), Return(g, h), Take(g, h)];
    assert Possible(s, moves, 0) && RunFrom(s, moves, 0) == s;
    assert Possible(s, moves, 1) && RunFrom(s, moves, 1) == After(s, moves[0]);
    assert Possible(s, moves, 2) && RunFrom(s, moves, 2) == After(RunFrom(s, moves, 1), moves[1]);
    assert Possible(s, moves, 3) && RunFrom(s, moves, 3) == After(RunFrom(s, moves, 2), moves[2]);
    assert RunFrom(s, moves, 4) == After(RunFrom(s, moves, 3), moves[3]);
  }

  /** And so does a pooled handle that the drain missed, with nothing on loan at all. */
  lemma MissedHandleIsLent(config: Config, config': Config, h: Handle, g: nat)
    requires config' != config
    ensures var s, moves := Compiled(config, h), [Replace(config', {h}), Take(g, h)];
            Possible(s, moves, 2)
            && var end := RunFrom(s, moves, 2);
               end.config == config' && Loan(g, h) in end.loans && h in end.made && end.made[h] == config
  {
    var s, moves := Compiled(config, h), [Replace(config', {h}), Take(g, h)];
    assert Possible(s, moves, 0) && RunFrom(s, moves, 0) == s;
    assert Possible(s, moves, 1) && RunFrom(s, moves, 1) == After(s, moves[0]);
    assert RunFrom(s, moves, 2) == After(RunFrom(s, moves, 1), moves[1]);
  }

  // ---- the value itself ----

  /** The compiled value. Each of its methods is one move, taken by itself. */
  class Regexp {
    /** Does the pool hand out what it holds? sync.Pool mostly does, and need not. */
    const handsOut: bool
    var config: Config
    var pool: set<Handle>
    var unused: Handle
    ghost var loans: set<Loan>
    ghost var made: map<Handle, Config>
    /** Every answer Get has given. */
    ghost var answers: seq<Option<Handle>>

    ghost function View(): State
      reads this
    {
      State(config, pool, loans, made)
    }

    /** The engine never gives the same handle twice, and what is pooled was given. */
    ghost predicate Valid()
      reads this
    {
      pool <= made.Keys && forall h :: h in made ==> h < unused
    }

    constructor (config: Config, handsOut: bool)
      ensures Valid() && View() == Compiled(config, 0) && this.handsOut == handsOut
    {
      this.config, this.handsOut := config, handsOut;
      pool, unused := {0}, 1;
      loans, made, answers := {}, map[0 := config], [];
    }

    /** sync.Pool's Get: any pooled handle, or none, whatever the pool holds unless it hands
        out what it holds. */
    method Get() returns (got: Option<Handle>)
      modifies this`pool, this`answers
      ensures got == None ==> pool == old(pool)
      ensures got.Some? ==> got.value in old(pool) && pool == old(pool) - {got.value}
      ensures handsOut ==> (got == None <==> old(pool) == {})
      ensures answers == old(answers) + [got]
    {
      var empty: bool := *;
      got := None;
      if pool != {} && (handsOut || !empty) {
        var h :| h in pool;
        pool := pool - {h};
        got := Some(h);
      }
      answers := answers + [got];
    }

    /** acquireError: a pooled handle, else a new one, unless the engine refuses. */
    method Acquire(ghost g: nat) returns (got: Option<Handle>)
      requires Valid()
      modifies this
      ensures Valid() && |answers| == |old(answers)| + 1
      ensures got == None ==> View() == old(View()) && answers[|answers| - 1] == None
      ensures got.Some? ==>
                var m := if got.value in old(pool) then Take(g, got.value) else Compile(g, got.value);
                Enabled(old(View()), m) && View() == After(old(View()), m)
      ensures handsOut && old(pool) != {} ==> got.Some? && got.value in old(pool)
    {
      got := Get();
      if got.Some? {
        loans := loans + {Loan(g, got.value)};
        return;
      }
      var refused: bool := *;
      if refused {
        return;
      }
      got := Some(unused);
      loans, made := loans + {Loan(g, unused)}, made[unused := config];
      unused := unused + 1;
    }

    method Release(ghost g: nat, h: Handle)
      requires Valid() && Apart(View()) && Enabled(View(), Return(g, h))
      modifies this
      ensures Valid() && View() == After(old(View()), Return(g, h))
    {
      pool := pool + {h};
      loans := loans - {Loan(g, h)};
    }

    /** UnmarshalText. Text that does not compile changes nothing; otherwise handles are
        taken from the pool until it gives none, and not before, and the configuration is
        overwritten. So where the pool hands out what it holds and nothing is on loan, no
        handle of the old pattern is left in circulation. */
    method UnmarshalText(compiled: Option<Config>) returns (ok: bool)
      requires Valid()
      modifies this
      ensures Valid() && ok == compiled.Some?
      ensures if ok then Enabled(old(View()), Replace(compiled.value, pool))
                         && View() == After(old(View()), Replace(compiled.value, pool))
                         && DrainedSince(old(answers), answers)
              else View() == old(View()) && answers == old(answers)
      ensures ok && handsOut ==> pool == {}
      ensures ok && handsOut && old(loans) == {} ==> Apart(View()) && Current(View())
    {
      if compiled == None {
        return false;
      }
      while true
        invariant pool <= old(pool) && AllGivenSince(old(answers), answers)
        invariant View() == old(View()).(pool := pool) && unused == old(unused)
        decreases pool
      {
        var got := Get();
        if got == None {
          break;
        }
      }
      config := compiled.value;
      return true;
    }
  }

  predicate AllGivenSince(before: seq<Option<Handle>>, answers: seq<Option<Handle>>) {
    && |before| <= |answers| && answers[..|before|] == before
    && forall k :: |before| <= k < |answers| ==> answers[k].Some?
  }

  /** Handles were given, and then none. */
  predicate DrainedSince(before: seq<Option<Handle>>, answers: seq<Option<Handle>>) {
    answers != [] && answers[|answers| - 1] == None && AllGivenSince(before, answers[..|answers| - 1])
  }
}
