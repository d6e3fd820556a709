/** The predictive parser: an explicit stack of what is left of the productions being worked on. */
module Parser {
  import opened Grammar
  import opened ParserRun
  import opened Wrappers

  /** The tokens that are pushed by a list of events. */
  function PushedTokens(ev: seq<Event>): seq<Token>
  {
    if ev == [] then []
    else
      var last := ev[|ev| - 1];
      PushedTokens(ev[..|ev| - 1]) + (if last.Pushed? then [last.token] else [])
  }

  lemma PushedMore(ev: seq<Event>, t: Token)
    ensures PushedTokens(ev + [Pushed(t)]) == PushedTokens(ev) + [t]
  {
    assert (ev + [Pushed(t)])[..|ev|] == ev;
  }

  /** What the derivation claimed so far is worth: what is pending completes it to a derivation of the root. */
  ghost predicate OnTrack(g: Grammar, stack: Stack, root: nat, taken: seq<Token>, done: seq<Event>)
  {
    forall w, ev :: Derives(g, Pending(stack), w, ev) ==> Derives(g, [NonTerminal(root)], taken + w, done + ev)
  }

  /** Taking `w` and `ev` off the front of what is pending keeps a parse on track. */
  lemma TrackStep(g: Grammar, stack: Stack, after: Stack, root: nat, taken: seq<Token>, done: seq<Event>,
                  w0: seq<Token>, ev0: seq<Event>)
    requires OnTrack(g, stack, root, taken, done)
    requires forall w, ev :: Derives(g, Pending(after), w, ev) ==> Derives(g, Pending(stack), w0 + w, ev0 + ev)
    ensures OnTrack(g, after, root, taken + w0, done + ev0)
  {
    hide Derives, Pending;
    forall w, ev | Derives(g, Pending(after), w, ev)
      ensures Derives(g, [NonTerminal(root)], taken + w0 + w, done + ev0 + ev)
    {
      assert Derives(g, Pending(stack), w0 + w, ev0 + ev);
      assert taken + (w0 + w) == taken + w0 + w && done + (ev0 + ev) == done + ev0 + ev;
    }
  }

  lemma TrackToken(g: Grammar, stack: Stack, root: nat, taken: seq<Token>, done: seq<Event>, t: Token)
    requires Proper(stack) && stack != [] && OnTrack(g, stack, root, taken, done)
    requires stack[|stack| - 1][0] == Terminal(t.kind)
    ensures Proper(Advance(stack)) && OnTrack(g, Advance(stack), root, taken + [t], done)
  {
    hide OnTrack, Derives;
    AdvancePending(stack);
    CurrentSymbol(stack);
    hide Pending, Behind, Advance;
    forall w, ev | Derives(g, Pending(Advance(stack)), w, ev)
      ensures Derives(g, Pending(stack), [t] + w, [] + ev)
    {
      assert [] + ev == ev;
      DeriveTerminal(g, t, Behind(stack), w, ev);
    }
    TrackStep(g, stack, Advance(stack), root, taken, done, [t], []);
    assert done + [] == done;
  }

  lemma TrackPush(g: Grammar, stack: Stack, root: nat, taken: seq<Token>, done: seq<Event>, t: Token)
    requires Proper(stack) && stack != [] && OnTrack(g, stack, root, taken, done)
    requires stack[|stack| - 1][0] == TerminalPush(t.kind)
    ensures Proper(Advance(stack)) && OnTrack(g, Advance(stack), root, taken + [t], done + [Pushed(t)])
  {
    hide OnTrack, Derives;
    AdvancePending(stack);
    CurrentSymbol(stack);
    hide Pending, Behind, Advance;
    forall w, ev | Derives(g, Pending(Advance(stack)), w, ev)
      ensures Derives(g, Pending(stack), [t] + w, [Pushed(t)] + ev)
    {
      DeriveTerminal(g, t, Behind(stack), w, ev);
    }
    TrackStep(g, stack, Advance(stack), root, taken, done, [t], [Pushed(t)]);
  }

  lemma TrackReduction(g: Grammar, stack: Stack, root: nat, taken: seq<Token>, done: seq<Event>, id: nat)
    requires Proper(stack) && stack != [] && OnTrack(g, stack, root, taken, done)
    requires stack[|stack| - 1][0] == Reduction(id)
    ensures Proper(Advance(stack)) && OnTrack(g, Advance(stack), root, taken, done + [Reduced(id)])
  {
    hide OnTrack, Derives;
    AdvancePending(stack);
    CurrentSymbol(stack);
    hide Pending, Behind, Advance;
    forall w, ev | Derives(g, Pending(Advance(stack)), w, ev)
      ensures Derives(g, Pending(stack), [] + w, [Reduced(id)] + ev)
    {
      assert [] + w == w;
      DeriveReduction(g, id, Behind(stack), w, ev);
    }
    TrackStep(g, stack, Advance(stack), root, taken, done, [], [Reduced(id)]);
    assert taken + [] == taken;
  }

  lemma TrackSelection(g: Grammar, stack: Stack, after: Stack, root: nat, taken: seq<Token>, done: seq<Event>)
    requires Proper(stack) && stack != [] && stack[|stack| - 1][0].NonTerminal?
    requires OnTrack(g, stack, root, taken, done)
    requires Implements(g, after, [stack[|stack| - 1][0]] + Behind(stack))
    ensures OnTrack(g, after, root, taken, done)
  {
    CurrentSymbol(stack);
  }

  /** When nothing is pending any more, what was taken is derived from the root. */
  lemma TrackEnds(g: Grammar, root: nat, taken: seq<Token>, done: seq<Event>)
    requires OnTrack(g, [], root, taken, done)
    ensures Derives(g, [NonTerminal(root)], taken, done)
  {
    DeriveNothing(g);
    assert taken + [] == taken && done + [] == done;
  }

  class Parser {
    const grammar: Grammar
    const lexer: nat -> Token
    var root: nat
    /** How many tokens were fetched from the lexer. */
    var fetched: nat
    var state: Stack
    var tokens: seq<Token>

    constructor (grammar: Grammar, root: nat, lexer: nat -> Token)
      ensures this.grammar == grammar && this.root == root && this.lexer == lexer
      ensures fetched == 0 && state == [] && tokens == []
    {
      this.grammar, this.root, this.lexer := grammar, root, lexer;
      fetched, state, tokens := 0, [], [];
    }

    /** The first `n` tokens of the lexer. */
    function Taken(n: nat): (ts: seq<Token>)
    {
      seq(n, i requires i >= 0 => lexer(i))
    }

    method NextToken() returns (t: Token)
      modifies `fetched
      ensures t == lexer(old(fetched)) && fetched == old(fetched) + 1
    {
      t := lexer(fetched);
      fetched := fetched + 1;
    }

    method AdvanceState()
      requires Proper(state)
      modifies `state
      ensures state == Advance(old(state)) && Proper(state)
      decreases |state|
    {
      AdvancePending(state);
      if state == [] {
        return;
      }
      var n := |state| - 1;
      var top := state[n][1..];
      if top == [] {
        state := state[..n];
        AdvanceState();
        return;
      }
      state := state[..n] + [top];
    }

    /** Push the production of the non-terminal that the token selects. The search gives up (`None`) when
        it goes deeper than `fuel`. */
    method SelectProduction(id: nat, t: Token, fuel: nat) returns (r: Option<bool>)
      requires Proper(state) && id < |grammar| && Defined(grammar)
      modifies `state
      ensures r == Some(true) ==> Proper(state) && exists n: nat :: Chosen(grammar, old(state), id, t.kind, state, n)
      // Nothing was selected: the stack is as it was, and the non-terminal indeed cannot start with the token.
      ensures r == Some(false) ==> state == old(state) && !Starts(grammar, id, t.kind)
      // Whether it ends depends on the non-terminal and the token only.
      ensures r == Select(grammar, id, t.kind, fuel)
      decreases fuel
    {
      if fuel == 0 {
        return None;
      }
      var nt := grammar[id];
      StartsByProduction(grammar, id, t.kind);
      for j := 0 to |nt.productions|
        invariant state == old(state)
        invariant Select(grammar, id, t.kind, fuel) == SelectFrom(grammar, id, t.kind, j, fuel)
        invariant forall i :: 0 <= i < j ==> !Opens(grammar, nt.productions[i], t.kind)
      {
        var p := nt.productions[j];
        OpensByFirst(grammar, p, t.kind);
        if p != [] {
          if p[0].Terminal? || p[0].TerminalPush? {
            if p[0].kind == t.kind {
              state := state + [p];
              PushPending(old(state), p);
              assert FirstToOpen(grammar, id, t.kind, j);
              assert Entered(grammar, old(state), p, t.kind, state, 0);
              assert Chosen(grammar, old(state), id, t.kind, state, 1);
              return Some(true);
            }
          } else if p[0].NonTerminal? {
            state := state + [p];
            PushPending(old(state), p);
            ghost var tested := state;
            var selected := SelectProduction(p[0].id, t, fuel - 1);
            if selected.None? {
              return None;
            }
            if !selected.value {
              state := state[..|state| - 1];
            } else {
              ghost var n: nat :| Chosen(grammar, tested, p[0].id, t.kind, state, n);
              ChosenStarts(grammar, tested, p[0].id, t.kind, state, n);
              assert FirstToOpen(grammar, id, t.kind, j);
              assert Entered(grammar, old(state), p, t.kind, state, n);
              assert Chosen(grammar, old(state), id, t.kind, state, n + 1);
              return Some(true);
            }
          }
        }
      }
      if nt.canSkip {
        AdvanceState();
        assert Chosen(grammar, old(state), id, t.kind, state, 1);
        return Some(true);
      }
      return Some(false);
    }

    /** What is pending cannot go on with a token of this kind. */
    ghost predicate Stuck(kind: int)
      reads this
    {
      forall w: seq<Token>, ev :: Derives(grammar, Pending(state), w, ev) ==> w != [] && w[0].kind != kind
    }

    lemma StuckAtTerminal(kind: int)
      requires Proper(state) && state != []
      requires var s := state[|state| - 1][0]; (s.Terminal? || s.TerminalPush?) && s.kind != kind
      ensures Stuck(kind)
    {
      CurrentSymbol(state);
      forall w: seq<Token>, ev | Derives(grammar, Pending(state), w, ev)
        ensures w != [] && w[0].kind != kind
      {
        WrongTerminal(grammar, Pending(state), kind, w, ev);
      }
    }

    lemma StuckAtNonTerminal(kind: int)
      requires Proper(state) && state != [] && Selectable(grammar)
      requires var s := state[|state| - 1][0]; s.NonTerminal? && !Starts(grammar, s.id, kind)
      ensures Stuck(kind)
    {
      CurrentSymbol(state);
      forall w: seq<Token>, ev | Derives(grammar, Pending(state), w, ev)
        ensures w != [] && w[0].kind != kind
      {
        var n: nat :| DerivesIn(grammar, Pending(state), w, ev, n);
        RejectedRightly(grammar, state[|state| - 1][0].id, kind, Behind(state), w, ev, n);
      }
    }

    /** A parse of the tokens taken so far is under way, with `t` as the current token. */
    ghost predicate Running(first: nat, before: seq<Token>, t: Token, done: seq<Event>)
      reads this
    {
      && Proper(state) && fetched > 0 && t == lexer(fetched - 1) && AllStackDefined(grammar, state)
      && OnTrack(grammar, state, first, Taken(fetched - 1), done)
      && tokens == before + PushedTokens(done)
    }

    /** Take the current token, which the current symbol asks for. */
    method TakeToken(t: Token, ghost first: nat, ghost before: seq<Token>, ghost done: seq<Event>)
      returns (next: Token, ghost done': seq<Event>)
      requires state != [] && Running(first, before, t, done)
      requires state[|state| - 1][0] in {Terminal(t.kind), TerminalPush(t.kind)}
      modifies `state, `tokens, `fetched
      ensures Running(first, before, next, done')
      ensures state == Advance(old(state)) && fetched == old(fetched) + 1
    {
      hide OnTrack, AllStackDefined, Advance, PushedTokens, Taken;
      AdvanceDefined(grammar, state);
      TakenMore();
      PushedMore(done, t);
      var push := state[|state| - 1][0].TerminalPush?;
      if push {
        TrackPush(grammar, state, first, Taken(fetched - 1), done, t);
      } else {
        TrackToken(grammar, state, first, Taken(fetched - 1), done, t);
      }
      AdvanceState();
      done' := done;
      if push {
        tokens := tokens + [t];
        done' := done + [Pushed(t)];
        assert before + PushedTokens(done) + [t] == before + (PushedTokens(done) + [t]);
      }
      next := NextToken();
    }

    lemma NoneTaken()
      ensures Taken(0) == []
    {
    }

    lemma TakenMore()
      requires fetched > 0
      ensures Taken(fetched) == Taken(fetched - 1) + [lexer(fetched - 1)]
    {
    }

    /** Selections are nested as deep as grammars without left recursion need. */
    ghost predicate NoLeftRecursionHere(fuel: nat)
      requires Defined(grammar)
    {
      NoLeftRecursion(grammar) && fuel >= |grammar|
    }

    /** Where the parse is. */
    ghost function Here(): Config
      reads this
      requires fetched > 0
    {
      Config(state, fetched - 1)
    }

    /** Select a production for the current symbol, a non-terminal. */
    method TakeNonTerminal(id: nat, t: Token, fuel: nat, ghost first: nat, ghost before: seq<Token>,
                           ghost done: seq<Event>) returns (end: ParseEnd)
      requires state != [] && Running(first, before, t, done) && Defined(grammar)
      requires state[|state| - 1][0] == NonTerminal(id)
      modifies `state
      ensures end.Finished? ==> Running(first, before, t, done) && Move(grammar, lexer, old(Here()), Here())
      ensures end.Rejected? ==> state == old(state) && Refuses(grammar, lexer, Here())
      ensures end.Rejected? && Selectable(grammar) ==> Stuck(t.kind)
      ensures end.StillRunning? ==> TooDeep(grammar, lexer, old(Here()), fuel) && !NoLeftRecursionHere(fuel)
    {
      hide OnTrack, Starts, Chosen, Derives, NoLeftRecursion, Taken, Stuck, Select;
      ghost var stack := state;
      if NoLeftRecursionHere(fuel) {
        WithoutLeftRecursion(grammar, id, t.kind, fuel);
      }
      var selected := SelectProduction(id, t, fuel);
      if selected.None? {
        return StillRunning;
      }
      if !selected.value {
        if Selectable(grammar) {
          StuckAtNonTerminal(t.kind);
        }
        return Rejected;
      }
      end := Finished;
      ghost var n: nat :| Chosen(grammar, stack, id, t.kind, state, n);
      ChosenImplements(grammar, stack, id, t.kind, state, n);
      ChosenDefined(grammar, stack, id, t.kind, state, n);
      TrackSelection(grammar, stack, state, first, Taken(fetched - 1), done);
    }

    /** Handle the current symbol. */
    method Round(t: Token, fuel: nat, ghost first: nat, ghost before: seq<Token>, ghost done: seq<Event>)
      returns (end: ParseEnd, next: Token, ghost done': seq<Event>)
      requires state != [] && Running(first, before, t, done) && Defined(grammar)
      modifies `state, `tokens, `fetched
      ensures end.Finished? ==>
                Running(first, before, next, done') && Move(grammar, lexer, old(Here()), Here())
      ensures end.Rejected? ==>
                fetched > 0 && Here() == old(Here()) && next == t && Refuses(grammar, lexer, Here())
                && tokens == old(tokens) && done' == done
      ensures end.Rejected? && Selectable(grammar) ==> Stuck(next.kind)
      ensures end.StillRunning? ==> TooDeep(grammar, lexer, old(Here()), fuel)
      ensures NoLeftRecursionHere(fuel) ==> !end.StillRunning?
    {
      hide OnTrack, Starts, Chosen, Derives, NoLeftRecursion, Taken, Stuck, TooDeep;
      end, next, done' := Finished, t, done;
      var symbol := state[|state| - 1][0];
      match symbol {
      case Terminal(kind) =>
        if t.kind == kind {
          next, done' := TakeToken(t, first, before, done);
        } else {
          StuckAtTerminal(t.kind);
          end := Rejected;
        }
      case TerminalPush(kind) =>
        if t.kind == kind {
          next, done' := TakeToken(t, first, before, done);
        } else {
          StuckAtTerminal(t.kind);
          end := Rejected;
        }
      case NonTerminal(id) =>
        end := TakeNonTerminal(id, t, fuel, first, before, done);
      case Reduction(id) =>
        TrackReduction(grammar, state, first, Taken(fetched - 1), done, id);
        AdvanceDefined(grammar, state);
        AdvanceState();
        done' := done + [Reduced(id)];
        assert done'[..|done|] == done;
      }
    }

    /** Parse from the root. Gives up after `steps` rounds, or when selections nest deeper than `fuel`. */
    method Parse(fuel: nat, steps: nat)
      returns (end: ParseEnd, rounds: nat, ghost started: bool, ghost done: seq<Event>, ghost run: seq<Config>)
      requires state == [] && root < |grammar| && Defined(grammar) && fetched == 0
      modifies `state, `tokens, `fetched
      // A parse that ends normally took tokens that the root derives, and pushed and reduced as the derivation says.
      ensures end.Finished? && started ==>
                && state == [] && fetched > 0
                && Derives(grammar, [NonTerminal(root)], Taken(fetched - 1), done)
                && tokens == old(tokens) + PushedTokens(done)
      // A root that the first token does not start is not reported: the parse ends normally and took nothing.
      ensures !end.StillRunning? ==> (started <==> Starts(grammar, root, lexer(0).kind)) && (!started ==> end.Finished?)
      ensures end.Finished? && !started ==> state == [] && fetched == 1 && tokens == old(tokens)
      // An error means that what is pending cannot go on with the current token.
      ensures end.Rejected? && Selectable(grammar) ==> fetched > 0 && Stuck(lexer(fetched - 1).kind)
      // Without left recursion it stops for want of rounds only: selections end within the number of non-terminals.
      ensures NoLeftRecursionHere(fuel) && end.StillRunning? ==> rounds == steps
      // It makes the moves there are, one a round, until nothing is left, none is possible, or the steps are used up.
      ensures Parses(grammar, root, lexer, fuel, steps, end, rounds, started, run)
      ensures started && (!end.StillRunning? || rounds == steps) ==>
                fetched > 0 && Here() == run[rounds] && tokens == old(tokens) + PushedTokens(done)
    {
      hide OnTrack, Implements, Starts, Derives, Stuck, NoLeftRecursion, Select, Move, IsRun, Refuses, TooDeep;
      hide Chosen, AllStackDefined, Defined, Taken;
      rounds, done, run := 0, [], [];
      var t := NextToken();
      if NoLeftRecursionHere(fuel) {
        WithoutLeftRecursion(grammar, root, t.kind, fuel);
      }
      var selected := SelectProduction(root, t, fuel);
      if selected.None? {
        return StillRunning, 0, false, done, run;
      }
      started := selected.value;
      ghost var before := tokens;
      if started {
        ghost var n: nat :| Chosen(grammar, [], root, t.kind, state, n);
        ChosenImplements(grammar, [], root, t.kind, state, n);
        NoneDefined(grammar);
        ChosenDefined(grammar, [], root, t.kind, state, n);
        ChosenStarts(grammar, [], root, t.kind, state, n);
        TrackBegins(grammar, state, root);
        NoneTaken();
        run := [Here()];
        RunBegins(grammar, root, lexer, state, n);
      }
      end := Finished;
      while state != []
        invariant end.Finished?
        invariant started ==> Running(root, before, t, done)
        invariant !started ==> state == [] && fetched == 1 && tokens == before && !Starts(grammar, root, t.kind)
        invariant rounds <= steps
        invariant started ==> |run| == rounds + 1 && IsRun(grammar, root, lexer, run) && run[rounds] == Here()
        decreases steps - rounds
      {
        if rounds == steps {
          end := StillRunning;
          return;
        }
        end, t, done := Round(t, fuel, root, before, done);
        if !end.Finished? {
          return;
        }
        RunGoesOn(grammar, root, lexer, run, Here());
        rounds, run := rounds + 1, run + [Here()];
      }
      if started {
        TrackEnds(grammar, root, Taken(fetched - 1), done);
      }
    }
  }

  lemma TrackBegins(g: Grammar, stack: Stack, root: nat)
    requires Implements(g, stack, [NonTerminal(root)] + Behind([]))
    ensures OnTrack(g, stack, root, [], [])
  {
    forall w, ev | Derives(g, Pending(stack), w, ev)
      ensures Derives(g, [NonTerminal(root)], [] + w, [] + ev)
    {
      assert [] + w == w && [] + ev == ev;
      assert [NonTerminal(root)] + Behind([]) == [NonTerminal(root)];
    }
  }

  /** Every non-terminal on the stack is defined. */
  ghost predicate AllStackDefined(g: Grammar, stack: Stack)
  {
    forall i :: 0 <= i < |stack| ==> AllDefined(g, stack[i])
  }

  lemma {:induction false} AdvanceDefined(g: Grammar, stack: Stack)
    requires Proper(stack) && AllStackDefined(g, stack)
    ensures AllStackDefined(g, Advance(stack))
    decreases |stack|
  {
    if stack != [] {
      AdvanceDefined(g, stack[..|stack| - 1]);
      assert AllDefined(g, stack[|stack| - 1]);
    }
  }

  lemma NoneDefined(g: Grammar)
    ensures AllStackDefined(g, [])
  {
  }

  lemma PushDefined(g: Grammar, stack: Stack, id: nat, p: seq<Symbol>)
    requires Defined(g) && AllStackDefined(g, stack) && id < |g| && p in g[id].productions
    ensures AllDefined(g, p) && AllStackDefined(g, stack + [p])
  {
    var j :| 0 <= j < |g[id].productions| && g[id].productions[j] == p;
    assert forall k :: 0 <= k < |p| ==> p[k] == g[id].productions[j][k];
  }

  lemma {:induction false} ChosenDefined(g: Grammar, stack: Stack, id: nat, kind: int, after: Stack, n: nat)
    requires Proper(stack) && AllStackDefined(g, stack) && Defined(g) && Chosen(g, stack, id, kind, after, n)
    ensures AllStackDefined(g, after)
    decreases n
  {
    hide Defined, AllStackDefined, Opens;
    if g[id].canSkip && after == Advance(stack) {
      AdvanceDefined(g, stack);
    } else {
      var j :| 0 <= j < |g[id].productions| && FirstToOpen(g, id, kind, j)
               && Entered(g, stack, g[id].productions[j], kind, after, n - 1);
      var p := g[id].productions[j];
      PushDefined(g, stack, id, p);
      if p[0].NonTerminal? {
        ChosenDefined(g, stack + [p], p[0].id, kind, after, n - 1);
      }
    }
  }
}
