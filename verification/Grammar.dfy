/** Grammars with pushes and reductions, what they derive, and the stack a
    predictive parser keeps. */
module Grammar {
  import opened Wrappers

  /** A token of the lexer. */
  datatype Token = Token(kind: int, extra: int)

  /** One place in a production. A pushed terminal is also put on the token stack; a reduction takes no token. */
  datatype Symbol = Terminal(kind: int) | TerminalPush(kind: int) | NonTerminal(id: nat) | Reduction(id: nat)

  datatype NonTerm = NonTerm(productions: seq<seq<Symbol>>, canSkip: bool)

  type Grammar = seq<NonTerm>

  /** What a parse does beside taking tokens. */
  datatype Event = Pushed(token: Token) | Reduced(id: nat)

  /** Every non-terminal a production mentions is defined. */
  ghost predicate Defined(g: Grammar)
  {
    forall i, j, k :: 0 <= i < |g| && 0 <= j < |g[i].productions| && 0 <= k < |g[i].productions[j]| ==>
      (g[i].productions[j][k].NonTerminal? ==> g[i].productions[j][k].id < |g|)
  }

  ghost predicate AllDefined(g: Grammar, ss: seq<Symbol>)
  {
    forall k :: 0 <= k < |ss| ==> (ss[k].NonTerminal? ==> ss[k].id < |g|)
  }

  // ---- Derivations ----

  /** In at most `n` leftmost steps the form `ss` derives the tokens `w`, with the pushes and reductions `ev`.
      A non-terminal stands for one of its productions, and for nothing when it can be skipped. */
  ghost predicate DerivesIn(g: Grammar, ss: seq<Symbol>, w: seq<Token>, ev: seq<Event>, n: nat)
    decreases n
  {
    if ss == [] then w == [] && ev == []
    else if n == 0 then false
    else
      match ss[0]
      case Terminal(kind) => w != [] && w[0].kind == kind && DerivesIn(g, ss[1..], w[1..], ev, n - 1)
      case TerminalPush(kind) =>
        && w != [] && w[0].kind == kind && ev != [] && ev[0] == Pushed(w[0])
        && DerivesIn(g, ss[1..], w[1..], ev[1..], n - 1)
      case Reduction(id) => ev != [] && ev[0] == Reduced(id) && DerivesIn(g, ss[1..], w, ev[1..], n - 1)
      case NonTerminal(id) =>
        && id < |g|
        && ((g[id].canSkip && DerivesIn(g, ss[1..], w, ev, n - 1))
            || exists p :: p in g[id].productions && DerivesIn(g, p + ss[1..], w, ev, n - 1))
  }

  ghost predicate Derives(g: Grammar, ss: seq<Symbol>, w: seq<Token>, ev: seq<Event>)
  {
    exists n: nat :: DerivesIn(g, ss, w, ev, n)
  }

  lemma DeriveNothing(g: Grammar)
    ensures Derives(g, [], [], [])
  {
    assert DerivesIn(g, [], [], [], 0);
  }

  lemma DeriveTerminal(g: Grammar, t: Token, ss: seq<Symbol>, w: seq<Token>, ev: seq<Event>)
    requires Derives(g, ss, w, ev)
    ensures Derives(g, [Terminal(t.kind)] + ss, [t] + w, ev)
    ensures Derives(g, [TerminalPush(t.kind)] + ss, [t] + w, [Pushed(t)] + ev)
  {
    var n: nat :| DerivesIn(g, ss, w, ev, n);
    assert ([t] + w)[1..] == w && ([Pushed(t)] + ev)[1..] == ev;
    assert ([Terminal(t.kind)] + ss)[1..] == ss && ([TerminalPush(t.kind)] + ss)[1..] == ss;
    assert DerivesIn(g, [Terminal(t.kind)] + ss, [t] + w, ev, n + 1);
    assert DerivesIn(g, [TerminalPush(t.kind)] + ss, [t] + w, [Pushed(t)] + ev, n + 1);
  }

  lemma DeriveReduction(g: Grammar, id: nat, ss: seq<Symbol>, w: seq<Token>, ev: seq<Event>)
    requires Derives(g, ss, w, ev)
    ensures Derives(g, [Reduction(id)] + ss, w, [Reduced(id)] + ev)
  {
    var n: nat :| DerivesIn(g, ss, w, ev, n);
    assert ([Reduced(id)] + ev)[1..] == ev && ([Reduction(id)] + ss)[1..] == ss;
    assert DerivesIn(g, [Reduction(id)] + ss, w, [Reduced(id)] + ev, n + 1);
  }

  lemma DeriveProduction(g: Grammar, id: nat, p: seq<Symbol>, ss: seq<Symbol>, w: seq<Token>, ev: seq<Event>)
    requires id < |g| && p in g[id].productions && Derives(g, p + ss, w, ev)
    ensures Derives(g, [NonTerminal(id)] + ss, w, ev)
  {
    var n: nat :| DerivesIn(g, p + ss, w, ev, n);
    assert ([NonTerminal(id)] + ss)[1..] == ss;
    assert DerivesIn(g, [NonTerminal(id)] + ss, w, ev, n + 1);
  }

  lemma DeriveSkip(g: Grammar, id: nat, ss: seq<Symbol>, w: seq<Token>, ev: seq<Event>)
    requires id < |g| && g[id].canSkip && Derives(g, ss, w, ev)
    ensures Derives(g, [NonTerminal(id)] + ss, w, ev)
  {
    var n: nat :| DerivesIn(g, ss, w, ev, n);
    assert ([NonTerminal(id)] + ss)[1..] == ss;
    assert DerivesIn(g, [NonTerminal(id)] + ss, w, ev, n + 1);
  }

  // ---- The stack ----

  /** The rests of the productions being worked on, the innermost last. All but the innermost begin with the
      non-terminal that the one above them stands for. */
  type Stack = seq<seq<Symbol>>

  ghost predicate Proper(stack: Stack)
  {
    forall i :: 0 <= i < |stack| ==> stack[i] != []
  }

  /** What is still to come behind the symbols the productions are at. */
  function Behind(stack: Stack): seq<Symbol>
  {
    if stack == [] then []
    else
      var top := stack[|stack| - 1];
      (if top == [] then [] else top[1..]) + Behind(stack[..|stack| - 1])
  }

  /** What is still to come, the current symbol included. */
  function Pending(stack: Stack): seq<Symbol>
  {
    if stack == [] then []
    else stack[|stack| - 1] + Behind(stack[..|stack| - 1])
  }

  /** Move on by one symbol, leaving the productions that are done. */
  function Advance(stack: Stack): Stack
    requires Proper(stack)
    decreases |stack|
  {
    if stack == [] then stack
    else
      var top := stack[|stack| - 1][1..];
      if top == [] then Advance(stack[..|stack| - 1]) else stack[..|stack| - 1] + [top]
  }

  lemma {:induction false} AdvancePending(stack: Stack)
    requires Proper(stack)
    ensures Proper(Advance(stack)) && Pending(Advance(stack)) == Behind(stack)
    decreases |stack|
  {
    if stack != [] {
      var below, top := stack[..|stack| - 1], stack[|stack| - 1][1..];
      if top == [] {
        AdvancePending(below);
        assert [] + Behind(below) == Behind(below);
      } else {
        assert (below + [top])[..|below|] == below;
      }
    }
  }

  lemma CurrentSymbol(stack: Stack)
    requires Proper(stack) && stack != []
    ensures Pending(stack) == [stack[|stack| - 1][0]] + Behind(stack)
    ensures Pending(stack) != [] && Pending(stack)[0] == stack[|stack| - 1][0]
  {
    HeadOf(stack[|stack| - 1], Behind(stack[..|stack| - 1]));
  }

  lemma HeadOf(top: seq<Symbol>, below: seq<Symbol>)
    requires top != []
    ensures top + below == [top[0]] + (top[1..] + below)
  {
  }

  lemma PushPending(stack: Stack, p: seq<Symbol>)
    ensures Pending(stack + [p]) == p + Behind(stack)
    ensures p != [] ==> Behind(stack + [p]) == p[1..] + Behind(stack)
    ensures Proper(stack) && p != [] ==> Proper(stack + [p])
  {
    assert (stack + [p])[..|stack|] == stack;
  }

  /** Whatever the stack `stack` goes on to derive, the form `ss` derives too. */
  ghost predicate Implements(g: Grammar, stack: Stack, ss: seq<Symbol>)
  {
    forall w, ev :: Derives(g, Pending(stack), w, ev) ==> Derives(g, ss, w, ev)
  }

  /** Pushing one of a non-terminal's productions and going on with it implements the non-terminal. */
  lemma PushImplements(g: Grammar, stack: Stack, id: nat, p: seq<Symbol>)
    requires id < |g| && p in g[id].productions
    ensures Implements(g, stack + [p], [NonTerminal(id)] + Behind(stack))
  {
    PushPending(stack, p);
    forall w, ev | Derives(g, Pending(stack + [p]), w, ev)
      ensures Derives(g, [NonTerminal(id)] + Behind(stack), w, ev)
    {
      DeriveProduction(g, id, p, Behind(stack), w, ev);
    }
  }

  /** A step inside the first non-terminal of a production pushed implements the non-terminal it was pushed for. */
  lemma TestImplements(g: Grammar, stack: Stack, id: nat, p: seq<Symbol>, after: Stack)
    requires id < |g| && p in g[id].productions && p != [] && p[0].NonTerminal?
    requires Implements(g, after, [p[0]] + Behind(stack + [p]))
    ensures Implements(g, after, [NonTerminal(id)] + Behind(stack))
  {
    PushPending(stack, p);
    assert [p[0]] + (p[1..] + Behind(stack)) == p + Behind(stack);
    forall w, ev | Derives(g, Pending(after), w, ev)
      ensures Derives(g, [NonTerminal(id)] + Behind(stack), w, ev)
    {
      DeriveProduction(g, id, p, Behind(stack), w, ev);
    }
  }

  lemma SkipImplements(g: Grammar, stack: Stack, id: nat)
    requires id < |g| && g[id].canSkip && Proper(stack)
    ensures Proper(Advance(stack)) && Implements(g, Advance(stack), [NonTerminal(id)] + Behind(stack))
  {
    AdvancePending(stack);
    forall w, ev | Derives(g, Pending(Advance(stack)), w, ev)
      ensures Derives(g, [NonTerminal(id)] + Behind(stack), w, ev)
    {
      DeriveSkip(g, id, Behind(stack), w, ev);
    }
  }

  // ---- Which production is selected ----

  /** Looking at most `n` first non-terminals deep, production `p` can begin with a token of this kind. An empty
      production and one that begins with a reduction never do. */
  ghost predicate OpensIn(g: Grammar, p: seq<Symbol>, kind: int, n: nat)
    decreases n, 1
  {
    && p != []
    && match p[0]
       case Terminal(k) => k == kind
       case TerminalPush(k) => k == kind
       case NonTerminal(id) => StartsIn(g, id, kind, n)
       case Reduction(_) => false
  }

  ghost predicate StartsIn(g: Grammar, id: nat, kind: int, n: nat)
    decreases n, 0
  {
    n > 0 && id < |g| && (g[id].canSkip || exists p :: p in g[id].productions && OpensIn(g, p, kind, n - 1))
  }

  ghost predicate Opens(g: Grammar, p: seq<Symbol>, kind: int)
  {
    exists n: nat :: OpensIn(g, p, kind, n)
  }

  /** The non-terminal can be skipped, or one of its productions can begin with the token. */
  ghost predicate Starts(g: Grammar, id: nat, kind: int)
  {
    exists n: nat :: StartsIn(g, id, kind, n)
  }

  lemma OpensByFirst(g: Grammar, p: seq<Symbol>, kind: int)
    ensures Opens(g, p, kind) <==>
            p != [] && match p[0]
                       case Terminal(k) => k == kind
                       case TerminalPush(k) => k == kind
                       case NonTerminal(id) => Starts(g, id, kind)
                       case Reduction(_) => false
  {
    if Opens(g, p, kind) {
      var n: nat :| OpensIn(g, p, kind, n);
      if p[0].NonTerminal? {
        assert StartsIn(g, p[0].id, kind, n);
      }
    }
    if p != [] && (p[0] == Terminal(kind) || p[0] == TerminalPush(kind)) {
      assert OpensIn(g, p, kind, 0);
    } else if p != [] && p[0].NonTerminal? && Starts(g, p[0].id, kind) {
      var n: nat :| StartsIn(g, p[0].id, kind, n);
      assert OpensIn(g, p, kind, n);
    }
  }

  lemma StartsByProduction(g: Grammar, id: nat, kind: int)
    requires id < |g|
    ensures Starts(g, id, kind) <==> g[id].canSkip || exists p :: p in g[id].productions && Opens(g, p, kind)
  {
    if g[id].canSkip {
      assert StartsIn(g, id, kind, 1);
    } else if p :| p in g[id].productions && Opens(g, p, kind) {
      var n: nat :| OpensIn(g, p, kind, n);
      assert StartsIn(g, id, kind, n + 1);
    } else if Starts(g, id, kind) {
      var n: nat :| StartsIn(g, id, kind, n);
      var p :| p in g[id].productions && OpensIn(g, p, kind, n - 1);
      assert Opens(g, p, kind);
    }
  }

  /** Selecting for the non-terminal turns `stack` into `after`: the first of its productions that can begin with
      the token is pushed, and below its first non-terminal the same is done again; when there is none, the
      non-terminal is skipped. */
  ghost predicate Chosen(g: Grammar, stack: Stack, id: nat, kind: int, after: Stack, n: nat)
    requires Proper(stack)
    decreases n, 0
  {
    && n > 0 && id < |g|
    && ((g[id].canSkip && after == Advance(stack)
         && forall i :: 0 <= i < |g[id].productions| ==> !Opens(g, g[id].productions[i], kind))
        || exists j :: 0 <= j < |g[id].productions| && FirstToOpen(g, id, kind, j)
                       && Entered(g, stack, g[id].productions[j], kind, after, n - 1))
  }

  ghost predicate Entered(g: Grammar, stack: Stack, p: seq<Symbol>, kind: int, after: Stack, n: nat)
    requires Proper(stack)
    decreases n, 1
  {
    && p != []
    && (p[0] == Terminal(kind) || p[0] == TerminalPush(kind) ==> after == stack + [p])
    && (p[0].NonTerminal? ==> Chosen(g, stack + [p], p[0].id, kind, after, n))
    && (p[0] == Terminal(kind) || p[0] == TerminalPush(kind) || p[0].NonTerminal?)
  }

  ghost predicate FirstToOpen(g: Grammar, id: nat, kind: int, j: int)
    requires id < |g| && 0 <= j < |g[id].productions|
  {
    && Opens(g, g[id].productions[j], kind)
    && forall i :: 0 <= i < j ==> !Opens(g, g[id].productions[i], kind)
  }

  lemma ChosenStarts(g: Grammar, stack: Stack, id: nat, kind: int, after: Stack, n: nat)
    requires Proper(stack) && Chosen(g, stack, id, kind, after, n)
    ensures Starts(g, id, kind)
  {
    StartsByProduction(g, id, kind);
  }

  /** Selecting implements the non-terminal: whatever is derived from then on is derived from it. */
  lemma {:induction false} ChosenImplements(g: Grammar, stack: Stack, id: nat, kind: int, after: Stack, n: nat)
    requires Proper(stack) && Chosen(g, stack, id, kind, after, n)
    ensures Proper(after) && Implements(g, after, [NonTerminal(id)] + Behind(stack))
    decreases n
  {
    hide Implements, Opens, Behind;
    if g[id].canSkip && after == Advance(stack) {
      SkipImplements(g, stack, id);
    } else {
      var j :| 0 <= j < |g[id].productions| && FirstToOpen(g, id, kind, j)
               && Entered(g, stack, g[id].productions[j], kind, after, n - 1);
      var p := g[id].productions[j];
      if p[0].NonTerminal? {
        ChosenImplements(g, stack + [p], p[0].id, kind, after, n - 1);
        TestImplements(g, stack, id, p, after);
      } else {
        PushImplements(g, stack, id, p);
      }
    }
  }

  /** No production is empty or begins with a reduction; such productions are never selected. */
  ghost predicate Selectable(g: Grammar)
  {
    forall i, p: seq<Symbol> :: 0 <= i < |g| && p in g[i].productions ==> p != [] && !p[0].Reduction?
  }

  /** A non-terminal whose only production is empty, before a terminal: the terminal is rejected though it is all that
      can be derived. */
  lemma EmptyProductionIsPassedOver()
    ensures var g := [NonTerm([[NonTerminal(1), Terminal(1)]], false), NonTerm([[]], false)];
            && !Starts(g, 0, 1) && Derives(g, [NonTerminal(0)], [Token(1, 0)], [])
  {
    var g := [NonTerm([[NonTerminal(1), Terminal(1)]], false), NonTerm([[]], false)];
    StartsByProduction(g, 1, 1);
    StartsByProduction(g, 0, 1);
    var none: seq<Symbol>, t, rest := [], Token(1, 0), [Terminal(1)];
    OpensByFirst(g, none, 1);
    OpensByFirst(g, [NonTerminal(1)] + rest, 1);
    DeriveNothing(g);
    DeriveTerminal(g, t, none, [], []);
    assert rest + none == rest && none + rest == rest && [t] + [] == [t];
    assert none in g[1].productions;
    DeriveProduction(g, 1, none, rest, [t], []);
    assert [NonTerminal(1)] + rest == [NonTerminal(1), Terminal(1)] == [NonTerminal(1), Terminal(1)] + none;
    DeriveProduction(g, 0, [NonTerminal(1), Terminal(1)], none, [t], []);
    assert [NonTerminal(0)] + none == [NonTerminal(0)];
  }

  /** A rejected token is rejected rightly: nothing that begins with it can be derived here, nor nothing at all. */
  lemma {:induction false} RejectedRightly(g: Grammar, id: nat, kind: int, ss: seq<Symbol>, w: seq<Token>,
                                           ev: seq<Event>, n: nat)
    requires Selectable(g) && !Starts(g, id, kind) && DerivesIn(g, [NonTerminal(id)] + ss, w, ev, n)
    ensures w != [] && w[0].kind != kind
    decreases n
  {
    StartsByProduction(g, id, kind);
    assert ([NonTerminal(id)] + ss)[1..] == ss;
    var p :| p in g[id].productions && DerivesIn(g, p + ss, w, ev, n - 1);
    OpensByFirst(g, p, kind);
    assert p != [] && !p[0].Reduction?;
    if p[0].NonTerminal? {
      assert p + ss == [NonTerminal(p[0].id)] + (p[1..] + ss);
      RejectedRightly(g, p[0].id, kind, p[1..] + ss, w, ev, n - 1);
    }
  }

  /** With a terminal of another kind pending first, nothing that begins with the token can be derived. */
  lemma WrongTerminal(g: Grammar, ss: seq<Symbol>, kind: int, w: seq<Token>, ev: seq<Event>)
    requires ss != [] && (ss[0].Terminal? || ss[0].TerminalPush?) && ss[0].kind != kind
    requires Derives(g, ss, w, ev)
    ensures w != [] && w[0].kind != kind
  {
    var n: nat :| DerivesIn(g, ss, w, ev, n);
  }

  // ---- How deep a selection goes ----

  /** What a selection comes to when it nests no deeper than `fuel`: whether something is selected. */
  function Select(g: Grammar, id: nat, kind: int, fuel: nat): Option<bool>
    requires id < |g| && Defined(g)
    decreases fuel, |g[id].productions| + 1
  {
    if fuel == 0 then None else SelectFrom(g, id, kind, 0, fuel)
  }

  /** The same, from production `j` on. */
  function SelectFrom(g: Grammar, id: nat, kind: int, j: nat, fuel: nat): Option<bool>
    requires id < |g| && Defined(g) && j <= |g[id].productions| && fuel > 0
    decreases fuel, |g[id].productions| - j
  {
    if j == |g[id].productions| then Some(g[id].canSkip)
    else
      var p := g[id].productions[j];
      if p == [] || p[0].Reduction? then SelectFrom(g, id, kind, j + 1, fuel)
      else if p[0].NonTerminal? then
        var r := Select(g, p[0].id, kind, fuel - 1);
        if r == Some(false) then SelectFrom(g, id, kind, j + 1, fuel) else r
      else if p[0].kind == kind then Some(true)
      else SelectFrom(g, id, kind, j + 1, fuel)
  }

  lemma {:induction false} SelectMore(g: Grammar, id: nat, kind: int, f: nat, f': nat)
    requires id < |g| && Defined(g) && f <= f' && Select(g, id, kind, f).Some?
    ensures Select(g, id, kind, f') == Select(g, id, kind, f)
    decreases f, |g[id].productions| + 1
  {
    SelectFromMore(g, id, kind, 0, f, f');
  }

  lemma {:induction false} SelectFromMore(g: Grammar, id: nat, kind: int, j: nat, f: nat, f': nat)
    requires id < |g| && Defined(g) && j <= |g[id].productions| && 0 < f <= f'
    requires SelectFrom(g, id, kind, j, f).Some?
    ensures SelectFrom(g, id, kind, j, f') == SelectFrom(g, id, kind, j, f)
    decreases f, |g[id].productions| - j
  {
    if j < |g[id].productions| {
      var p := g[id].productions[j];
      if p != [] && p[0].NonTerminal? {
        SelectMore(g, p[0].id, kind, f - 1, f' - 1);
        if Select(g, p[0].id, kind, f - 1) == Some(false) {
          SelectFromMore(g, id, kind, j + 1, f, f');
        }
      } else if p == [] || p[0].Reduction? || p[0].kind != kind {
        SelectFromMore(g, id, kind, j + 1, f, f');
      }
    }
  }

  /** The selections for `above` are not over within `f`. */
  ghost predicate NotYet(g: Grammar, above: set<nat>, kind: int, f: nat)
    requires Defined(g)
  {
    forall a :: a in above ==> a < |g| && Select(g, a, kind, f).None?
  }

  lemma NotYetLess(g: Grammar, above: set<nat>, kind: int, f: nat, f': nat)
    requires Defined(g) && NotYet(g, above, kind, f') && f <= f'
    ensures NotYet(g, above, kind, f)
  {
    forall a | a in above
      ensures Select(g, a, kind, f).None?
    {
      if Select(g, a, kind, f).Some? {
        SelectMore(g, a, kind, f, f');
      }
    }
  }

  lemma {:induction false} Below(s: set<nat>, n: nat)
    requires forall x :: x in s ==> x < n
    ensures |s| <= n
  {
    if n > 0 {
      Below(s - {n - 1}, n - 1);
    } else {
      assert s == {};
    }
  }

  /** A selection that is over at all, inside of others that take longer, is over within as many calls as there are
      other non-terminals. */
  lemma {:induction false} Enough(g: Grammar, id: nat, kind: int, f: nat, above: set<nat>, fuel: nat)
    requires id < |g| && Defined(g) && Select(g, id, kind, f).Some? && NotYet(g, above, kind, f)
    requires |above| + fuel >= |g|
    ensures Select(g, id, kind, fuel) == Select(g, id, kind, f)
    decreases f, |g[id].productions| + 1
  {
    if Select(g, id, kind, f - 1).Some? {
      SelectMore(g, id, kind, f - 1, f);
      NotYetLess(g, above, kind, f - 1, f);
      Enough(g, id, kind, f - 1, above, fuel);
    } else {
      NotYetLess(g, above, kind, f - 1, f);
      Below(above + {id}, |g|);
      EnoughFrom(g, id, kind, 0, f, above + {id}, fuel);
    }
  }

  lemma {:induction false} EnoughFrom(g: Grammar, id: nat, kind: int, j: nat, f: nat, above: set<nat>, fuel: nat)
    requires id < |g| && Defined(g) && j <= |g[id].productions| && f > 0 && fuel > 0
    requires SelectFrom(g, id, kind, j, f).Some? && NotYet(g, above, kind, f - 1) && |above| + fuel - 1 >= |g|
    ensures SelectFrom(g, id, kind, j, fuel) == SelectFrom(g, id, kind, j, f)
    decreases f, |g[id].productions| - j
  {
    if j < |g[id].productions| {
      var p := g[id].productions[j];
      if p != [] && p[0].NonTerminal? {
        Enough(g, p[0].id, kind, f - 1, above, fuel - 1);
        if Select(g, p[0].id, kind, f - 1) == Some(false) {
          EnoughFrom(g, id, kind, j + 1, f, above, fuel);
        }
      } else if p == [] || p[0].Reduction? || p[0].kind != kind {
        EnoughFrom(g, id, kind, j + 1, f, above, fuel);
      }
    }
  }

  /** A selection that ends, ends within as many nested calls as there are non-terminals. */
  lemma SelectionEnds(g: Grammar, id: nat, kind: int)
    requires id < |g| && Defined(g)
    ensures (exists f :: Select(g, id, kind, f).Some?) <==> Select(g, id, kind, |g|).Some?
  {
    if f :| Select(g, id, kind, f).Some? {
      Enough(g, id, kind, f, {}, |g|);
    }
  }

  /** No production begins with a non-terminal of the same rank or a higher one: there is no left recursion. */
  ghost predicate Ranked(g: Grammar, rank: seq<nat>)
    requires Defined(g)
  {
    |rank| == |g| &&
    forall i, j :: 0 <= i < |g| && 0 <= j < |g[i].productions| ==>
      var p := g[i].productions[j];
      p != [] && p[0].NonTerminal? ==> p[0].id < |g| && rank[p[0].id] < rank[i]
  }

  ghost predicate NoLeftRecursion(g: Grammar)
    requires Defined(g)
  {
    exists rank :: Ranked(g, rank)
  }

  lemma {:induction false} RankedEnds(g: Grammar, rank: seq<nat>, id: nat, kind: int)
    requires Defined(g) && Ranked(g, rank) && id < |g|
    ensures Select(g, id, kind, rank[id] + 1).Some?
    decreases rank[id], |g[id].productions| + 1
  {
    RankedEndsFrom(g, rank, id, kind, 0);
  }

  lemma {:induction false} RankedEndsFrom(g: Grammar, rank: seq<nat>, id: nat, kind: int, j: nat)
    requires Defined(g) && Ranked(g, rank) && id < |g| && j <= |g[id].productions|
    ensures SelectFrom(g, id, kind, j, rank[id] + 1).Some?
    decreases rank[id], |g[id].productions| - j
  {
    if j < |g[id].productions| {
      var p := g[id].productions[j];
      if p != [] && p[0].NonTerminal? {
        RankedEnds(g, rank, p[0].id, kind);
        SelectMore(g, p[0].id, kind, rank[p[0].id] + 1, rank[id]);
      }
      RankedEndsFrom(g, rank, id, kind, j + 1);
    }
  }

  /** Without left recursion every selection ends within as many nested calls as there are non-terminals. */
  lemma WithoutLeftRecursion(g: Grammar, id: nat, kind: int, fuel: nat)
    requires Defined(g) && NoLeftRecursion(g) && id < |g| && fuel >= |g|
    ensures Select(g, id, kind, fuel).Some?
  {
    var rank :| Ranked(g, rank);
    RankedEnds(g, rank, id, kind);
    Enough(g, id, kind, rank[id] + 1, {}, fuel);
  }
}
