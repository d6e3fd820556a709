/** The moves of a predictive parse, and which of them a parse that is given so many steps makes. */
module ParserRun {
  import opened Grammar
  import opened Wrappers

  /** How a parse ended: normally, with an error, or not yet within the steps it was given. */
  datatype ParseEnd = Finished | Rejected | StillRunning

  /** Where a parse is: what is left of the productions, and how many tokens were taken. */
  datatype Config = Config(stack: Stack, taken: nat)

  /** One move: a terminal takes a token of its kind, a reduction is made, or a production is selected for a
      non-terminal. */
  ghost predicate Move(g: Grammar, lexer: nat -> Token, c: Config, c': Config)
  {
    && Proper(c.stack) && c.stack != []
    && match c.stack[|c.stack| - 1][0]
       case Terminal(kind) => lexer(c.taken).kind == kind && c' == Config(Advance(c.stack), c.taken + 1)
       case TerminalPush(kind) => lexer(c.taken).kind == kind && c' == Config(Advance(c.stack), c.taken + 1)
       case Reduction(_) => c' == Config(Advance(c.stack), c.taken)
       case NonTerminal(id) =>
         c'.taken == c.taken && exists n: nat :: Chosen(g, c.stack, id, lexer(c.taken).kind, c'.stack, n)
  }

  /** A production of the root was selected. */
  ghost predicate Begins(g: Grammar, root: nat, lexer: nat -> Token, c: Config)
  {
    c.taken == 0 && exists n: nat :: Chosen(g, [], root, lexer(0).kind, c.stack, n)
  }

  ghost predicate IsRun(g: Grammar, root: nat, lexer: nat -> Token, run: seq<Config>)
  {
    && run != [] && Begins(g, root, lexer, run[0])
    && forall i :: 0 <= i < |run| - 1 ==> Move(g, lexer, run[i], run[i + 1])
  }

  /** No move is possible here: the token is of another kind than the terminal, or nothing can be selected. */
  ghost predicate Refuses(g: Grammar, lexer: nat -> Token, c: Config)
  {
    && Proper(c.stack) && c.stack != []
    && match c.stack[|c.stack| - 1][0]
       case Terminal(kind) => lexer(c.taken).kind != kind
       case TerminalPush(kind) => lexer(c.taken).kind != kind
       case NonTerminal(id) => !Starts(g, id, lexer(c.taken).kind)
       case Reduction(_) => false
  }

  /** The selection to be made here does not end within `fuel` nested calls. */
  ghost predicate TooDeep(g: Grammar, lexer: nat -> Token, c: Config, fuel: nat)
    requires Defined(g)
  {
    && Proper(c.stack) && c.stack != []
    && var s := c.stack[|c.stack| - 1][0];
       s.NonTerminal? && s.id < |g| && Select(g, s.id, lexer(c.taken).kind, fuel).None?
  }

  /** What a parse that may make `steps` moves, with selections of depth `fuel`, comes to. */
  ghost predicate Parses(g: Grammar, root: nat, lexer: nat -> Token, fuel: nat, steps: nat, end: ParseEnd,
                          rounds: nat, started: bool, run: seq<Config>)
    requires Defined(g) && root < |g|
  {
    if !started then
      if end.StillRunning? then Select(g, root, lexer(0).kind, fuel).None?
      else end.Finished? && !Starts(g, root, lexer(0).kind)
    else
      && IsRun(g, root, lexer, run) && |run| == rounds + 1 && rounds <= steps
      && var last := run[rounds];
         match end
         case Finished => last.stack == []
         case Rejected => rounds < steps && Refuses(g, lexer, last)
         case StillRunning => last.stack != [] && (rounds == steps || TooDeep(g, lexer, last, fuel))
  }

  lemma RunBegins(g: Grammar, root: nat, lexer: nat -> Token, stack: Stack, n: nat)
    requires Chosen(g, [], root, lexer(0).kind, stack, n)
    ensures IsRun(g, root, lexer, [Config(stack, 0)])
  {
  }

  lemma RunGoesOn(g: Grammar, root: nat, lexer: nat -> Token, run: seq<Config>, c: Config)
    requires IsRun(g, root, lexer, run) && Move(g, lexer, run[|run| - 1], c)
    ensures IsRun(g, root, lexer, run + [c])
  {
    hide Move, Begins;
  }

  // ---- There is one way to move ----

  lemma {:induction false} ChosenOnce(g: Grammar, stack: Stack, id: nat, kind: int, a: Stack, n: nat, b: Stack, m: nat)
    requires Proper(stack) && Chosen(g, stack, id, kind, a, n) && Chosen(g, stack, id, kind, b, m)
    ensures a == b
    decreases n
  {
    hide Opens, Advance;
    if j :| 0 <= j < |g[id].productions| && FirstToOpen(g, id, kind, j)
            && Entered(g, stack, g[id].productions[j], kind, a, n - 1) {
      var p := g[id].productions[j];
      assert Entered(g, stack, p, kind, b, m - 1);
      if p[0].NonTerminal? {
        ChosenOnce(g, stack + [p], p[0].id, kind, a, n - 1, b, m - 1);
      }
    }
  }

  lemma MoveOnce(g: Grammar, lexer: nat -> Token, c: Config, a: Config, b: Config)
    requires Move(g, lexer, c, a) && Move(g, lexer, c, b)
    ensures a == b
  {
    hide Chosen;
    var s := c.stack[|c.stack| - 1][0];
    if s.NonTerminal? {
      var kind := lexer(c.taken).kind;
      var n: nat :| Chosen(g, c.stack, s.id, kind, a.stack, n);
      var m: nat :| Chosen(g, c.stack, s.id, kind, b.stack, m);
      ChosenOnce(g, c.stack, s.id, kind, a.stack, n, b.stack, m);
    }
  }

  lemma BeginsOnce(g: Grammar, root: nat, lexer: nat -> Token, a: Config, b: Config)
    requires Begins(g, root, lexer, a) && Begins(g, root, lexer, b)
    ensures a == b && Starts(g, root, lexer(0).kind)
  {
    hide Chosen;
    var kind, none: Stack := lexer(0).kind, [];
    var n: nat :| Chosen(g, none, root, kind, a.stack, n);
    var m: nat :| Chosen(g, none, root, kind, b.stack, m);
    ChosenOnce(g, none, root, kind, a.stack, n, b.stack, m);
    ChosenStarts(g, none, root, kind, a.stack, n);
  }

  lemma RefusesMove(g: Grammar, lexer: nat -> Token, c: Config, c': Config)
    requires Refuses(g, lexer, c)
    ensures !Move(g, lexer, c, c')
  {
    hide Chosen, Starts;
    var s := c.stack[|c.stack| - 1][0];
    if s.NonTerminal? && Move(g, lexer, c, c') {
      var n: nat :| Chosen(g, c.stack, s.id, lexer(c.taken).kind, c'.stack, n);
      ChosenStarts(g, c.stack, s.id, lexer(c.taken).kind, c'.stack, n);
    }
  }

  /** Two runs are the same as far as both go. */
  lemma {:induction false} RunsAgree(g: Grammar, root: nat, lexer: nat -> Token, a: seq<Config>, b: seq<Config>, i: nat)
    requires IsRun(g, root, lexer, a) && IsRun(g, root, lexer, b) && i < |a| && i < |b|
    ensures a[i] == b[i]
  {
    hide Move, Begins;
    if i == 0 {
      BeginsOnce(g, root, lexer, a[0], b[0]);
    } else {
      RunsAgree(g, root, lexer, a, b, i - 1);
      MoveOnce(g, lexer, a[i - 1], a[i], b[i]);
    }
  }

  lemma OneIsLonger(g: Grammar, root: nat, lexer: nat -> Token, a: seq<Config>, b: seq<Config>)
    requires IsRun(g, root, lexer, a) && IsRun(g, root, lexer, b) && |a| <= |b|
    ensures a == b[..|a|]
    ensures |a| < |b| ==> Move(g, lexer, a[|a| - 1], b[|a|])
  {
    hide Move, Begins;
    forall i | 0 <= i < |a|
      ensures a[i] == b[i]
    {
      RunsAgree(g, root, lexer, a, b, i);
    }
  }

  // ---- What a parse comes to ----

  /** All selections of a run end within `fuel` nested calls. */
  ghost predicate SelectionsEnd(g: Grammar, root: nat, lexer: nat -> Token, run: seq<Config>, fuel: nat)
    requires Defined(g) && root < |g|
  {
    && Select(g, root, lexer(0).kind, fuel).Some?
    && forall i :: 0 <= i < |run| ==> !TooDeep(g, lexer, run[i], fuel)
  }

  /** A parse makes the moves there are to make: it ends normally after a run to the end, with an error after a run to
      where no move is possible, and otherwise goes on for as many moves as it may make. */
  lemma Decided(g: Grammar, root: nat, lexer: nat -> Token, fuel: nat, steps: nat, end: ParseEnd, rounds: nat,
                started: bool, run: seq<Config>, r: seq<Config>)
    requires Defined(g) && root < |g| && Parses(g, root, lexer, fuel, steps, end, rounds, started, run)
    requires IsRun(g, root, lexer, r) && SelectionsEnd(g, root, lexer, r, fuel)
    ensures started
    ensures |r| - 1 <= steps && r[|r| - 1].stack == [] ==> end.Finished? && run == r
    ensures |r| - 1 < steps && Refuses(g, lexer, r[|r| - 1]) ==> end.Rejected? && run == r
    ensures |r| - 1 == steps && r[|r| - 1].stack != [] ==> end.StillRunning? && run == r
  {
    hide Move, Begins, Refuses, TooDeep, Starts, Select, Defined;
    BeginsOnce(g, root, lexer, r[0], r[0]);
    if |run| <= |r| {
      OneIsLonger(g, root, lexer, run, r);
      if |run| < |r| {
        CanMove(g, lexer, run[rounds], r[|run|]);
      } else {
        RefusesSomewhere(g, lexer, run[rounds]);
        assert r[..|r|] == r;
      }
    } else {
      OneIsLonger(g, root, lexer, r, run);
      CanMove(g, lexer, r[|r| - 1], run[|r|]);
    }
  }

  /** Without left recursion they all do. */
  lemma AllSelectionsEnd(g: Grammar, root: nat, lexer: nat -> Token, run: seq<Config>, fuel: nat)
    requires Defined(g) && root < |g| && NoLeftRecursion(g) && fuel >= |g|
    ensures SelectionsEnd(g, root, lexer, run, fuel)
  {
    hide NoLeftRecursion, Select, Defined;
    WithoutLeftRecursion(g, root, lexer(0).kind, fuel);
    forall i | 0 <= i < |run|
      ensures !TooDeep(g, lexer, run[i], fuel)
    {
      if TooDeep(g, lexer, run[i], fuel) {
        WithoutLeftRecursion(g, run[i].stack[|run[i].stack| - 1][0].id, lexer(run[i].taken).kind, fuel);
      }
    }
  }

  lemma CanMove(g: Grammar, lexer: nat -> Token, c: Config, c': Config)
    requires Move(g, lexer, c, c')
    ensures c.stack != [] && !Refuses(g, lexer, c)
  {
    if Refuses(g, lexer, c) {
      RefusesMove(g, lexer, c, c');
    }
  }

  lemma RefusesSomewhere(g: Grammar, lexer: nat -> Token, c: Config)
    ensures Refuses(g, lexer, c) ==> c.stack != []
  {
  }
}
