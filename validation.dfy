/**
 * The two static passes over the rule store, shared by both copies of the grammar
 * engine: the four-colour depth-first search `dfs` that decides which non-terminals
 * are safe, its top-level driver, the depth-first walk `find_reachable`, and the
 * final filters over the status map.
 *
 * Each pass mutates a status map that the caller owns and lends out exclusively
 * (`&mut HashMap`); here it is passed in and the updated map is returned.
 */
module Validation {
  import opened Text
  import opened RuleStore
  import opened Derivation

  /** The status constants 0, 1, 2, 3 of the source. */
  datatype Status = Unvisited | Visiting | Unsafe | Safe

  type StatusMap = map<string, Status>

  /** The non-terminals on the current search path. */
  function VisitingSet(s: StatusMap): set<string>
  {
    set k | k in s && s[k] == Visiting
  }

  function UnvisitedSet(s: StatusMap): set<string>
  {
    set k | k in s && s[k] == Unvisited
  }

  /** Every key marked SAFE really has a finite derivation. */
  ghost predicate SafeSound(g: Rules, s: StatusMap)
  {
    forall k :: k in s && s[k] == Safe ==> Productive(g, k)
  }

  /** Every key marked UNSAFE really has none. */
  ghost predicate UnsafeSound(g: Rules, s: StatusMap)
  {
    forall k :: k in s && s[k] == Unsafe ==> !Productive(g, k)
  }

  /**
   * How a search may change a status map: the same keys, the same VISITING path,
   * SAFE is never downgraded, and UNSAFE is neither written nor overwritten.
   */
  ghost predicate Evolves(before: StatusMap, after: StatusMap)
  {
    && after.Keys == before.Keys
    && VisitingSet(after) == VisitingSet(before)
    && (forall k :: k in before && before[k] == Safe ==> after[k] == Safe)
    && (forall k :: k in before ==> (after[k] == Unsafe <==> before[k] == Unsafe))
  }

  lemma EvolvesTransitive(a: StatusMap, b: StatusMap, c: StatusMap)
    requires Evolves(a, b) && Evolves(b, c)
    ensures Evolves(a, c)
  {
  }

  /** What the safety pass must produce: SAFE exactly for the productive non-terminals. */
  ghost function SafetyMap(g: Rules): (r: StatusMap)
    ensures r.Keys == g.Keys
    ensures forall k :: k in r ==> r[k] == Safe || r[k] == Unsafe
  {
    map k | k in g :: if Productive(g, k) then Safe else Unsafe
  }

  /**
   * `dfs`. A token without a status entry (a terminal) is safe; a SAFE one is
   * safe; UNSAFE and VISITING ones are not. An UNVISITED non-terminal is marked
   * VISITING while every alternative is checked in turn (`OptionIsSafe`); it
   * becomes SAFE when some alternative has only safe tokens, and otherwise goes back
   * to UNVISITED, so that a failure caused by the current path does not condemn it.
   *
   * The result is sound (true only for productive tokens) and complete relative to
   * the current path (true whenever the token has a derivation that avoids every
   * VISITING non-terminal). The search terminates because each nested call has one
   * more key VISITING than its caller.
   */
  method Dfs(node: string, graph: Rules, status: StatusMap) returns (safe: bool, status': StatusMap)
    requires status.Keys == graph.Keys
    requires SafeSound(graph, status) && UnsafeSound(graph, status)
    ensures Evolves(status, status')
    ensures SafeSound(graph, status')
    ensures node !in status ==> safe
    ensures node in status && status[node] == Visiting ==> !safe
    ensures node in status && status[node] == Unvisited ==>
              status'[node] == (if safe then Safe else Unvisited)
    ensures safe ==> Productive(graph, node)
    ensures (exists n :: Derives(graph, VisitingSet(status), node, n)) ==> safe
    decreases |status.Keys - VisitingSet(status)|, 1
  {
    if node !in status {
      assert Derives(graph, {}, node, 0);
      return true, status;
    }
    match status[node]
    case Safe =>
      safe, status' := true, status;
    case Unsafe =>
      safe, status' := false, status;
      forall n ensures !Derives(graph, VisitingSet(status), node, n) {
        if Derives(graph, VisitingSet(status), node, n) {
          DerivesAvoidLess(graph, VisitingSet(status), {}, node, n);
        }
      }
    case Visiting =>
      safe, status' := false, status;
    case Unvisited =>
      safe, status' := Visit(node, graph, status);
  }

  /**
   * The UNVISITED arm of `dfs`: mark `node` VISITING, check every alternative, then
   * mark it SAFE if one alternative was all safe and UNVISITED again otherwise.
   */
  method Visit(node: string, graph: Rules, status: StatusMap) returns (safe: bool, status': StatusMap)
    requires status.Keys == graph.Keys
    requires SafeSound(graph, status) && UnsafeSound(graph, status)
    requires node in status && status[node] == Unvisited
    ensures Evolves(status, status')
    ensures SafeSound(graph, status')
    ensures status'[node] == (if safe then Safe else Unvisited)
    ensures safe ==> Productive(graph, node)
    ensures (exists n :: Derives(graph, VisitingSet(status), node, n)) ==> safe
    decreases |status.Keys - VisitingSet(status)|, 0
  {
    ghost var path := VisitingSet(status);
    var cur := status[node := Visiting];
    ghost var marked := cur;
    MarkVisiting(status, node);
    // Ghost: an alternative of `node` that derives while avoiding the path, if any.
    ghost var w: int := -1;
    ghost var h: nat := 0;
    if n :| Derives(graph, path, node, n) {
      w, h := AvoidingAlternative(graph, path, node, n);
    }
    assert w >= 0 ==> AllDerive(graph, VisitingSet(cur), SplitWhitespace(graph[node][w]), h);
    var isSafe;
    isSafe, cur := AnyAlternativeSafe(node, graph, cur, w, h);
    status' := cur[node := if isSafe then Safe else Unvisited];
    Unmark(status, node, cur, status'[node]);
    SafeSoundUpdate(graph, cur, node, status'[node]);
    safe := isSafe;
  }

  /**
   * The loop of `dfs` over the alternatives of a VISITING `node`: every alternative
   * is checked, and the result says whether at least one had only safe tokens. It
   * is true whenever alternative `w` derives while avoiding the current path.
   */
  method AnyAlternativeSafe(node: string, graph: Rules, status: StatusMap, ghost w: int, ghost h: nat)
    returns (isSafe: bool, status': StatusMap)
    requires status.Keys == graph.Keys
    requires SafeSound(graph, status) && UnsafeSound(graph, status)
    requires node in graph && status[node] == Visiting
    requires 0 <= w ==> w < |graph[node]| && AllDerive(graph, VisitingSet(status), SplitWhitespace(graph[node][w]), h)
    ensures Evolves(status, status')
    ensures SafeSound(graph, status')
    ensures isSafe ==> Productive(graph, node)
    ensures 0 <= w ==> isSafe
    decreases |status.Keys - VisitingSet(status)|, 3
  {
    var options := graph[node];
    isSafe := false;
    status' := status;
    var i := 0;
    while i < |options|
      invariant 0 <= i <= |options|
      invariant Evolves(status, status')
      invariant SafeSound(graph, status')
      invariant isSafe ==> Productive(graph, node)
      invariant 0 <= w < i ==> isSafe
    {
      if i == w {
        assert AllDerive(graph, VisitingSet(status'), SplitWhitespace(options[i]), h);
      }
      var isValidOption;
      ghost var height;
      ghost var before := status';
      isValidOption, status', height := OptionIsSafe(options[i], graph, status');
      EvolvesTransitive(status, before, status');
      if isValidOption {
        AlternativeDerives(graph, node, i, height);
        isSafe := true;
      }
      i := i + 1;
    }
  }

  /** A non-terminal with an alternative whose tokens all derive is productive. */
  lemma AlternativeDerives(g: Rules, node: string, i: nat, height: nat)
    requires node in g && i < |g[node]|
    requires AllDerive(g, {}, SplitWhitespace(g[node][i]), height)
    ensures Productive(g, node)
  {
    assert Derives(g, {}, node, height + 1);
  }

  lemma SafeSoundUpdate(g: Rules, s: StatusMap, k: string, x: Status)
    requires SafeSound(g, s)
    requires x == Safe ==> Productive(g, k)
    ensures SafeSound(g, s[k := x])
  {
  }

  lemma MarkVisiting(status: StatusMap, node: string)
    requires node in status && status[node] != Visiting
    ensures VisitingSet(status[node := Visiting]) == VisitingSet(status) + {node}
    ensures status.Keys - VisitingSet(status[node := Visiting]) < status.Keys - VisitingSet(status)
  {
    assert VisitingSet(status[node := Visiting]) == VisitingSet(status) + {node};
  }

  /** Taking `node` off the path again after a search that started by putting it on. */
  lemma Unmark(status: StatusMap, node: string, cur: StatusMap, x: Status)
    requires node in status && status[node] == Unvisited
    requires Evolves(status[node := Visiting], cur)
    requires x == Safe || x == Unvisited
    ensures Evolves(status, cur[node := x])
  {
    MarkVisiting(status, node);
    assert VisitingSet(cur[node := x]) == VisitingSet(cur) - {node};
  }

  /**
   * The body of the loop over one alternative in `dfs`: search every token in turn
   * (all of them, even after a failure) and report whether all were safe.
   */
  method OptionIsSafe(option: string, graph: Rules, status: StatusMap)
    returns (valid: bool, status': StatusMap, ghost height: nat)
    requires status.Keys == graph.Keys
    requires SafeSound(graph, status) && UnsafeSound(graph, status)
    ensures Evolves(status, status')
    ensures SafeSound(graph, status')
    ensures valid ==> AllDerive(graph, {}, SplitWhitespace(option), height)
    ensures (exists n :: AllDerive(graph, VisitingSet(status), SplitWhitespace(option), n)) ==> valid
    decreases |status.Keys - VisitingSet(status)|, 2
  {
    var parsed := ParseSubunits(option);
    ghost var avoid := VisitingSet(status);
    ghost var complete := exists n :: AllDerive(graph, avoid, parsed, n);
    ghost var h: nat := 0;
    if complete {
      h :| AllDerive(graph, avoid, parsed, h);
    }
    valid := true;
    height := 0;
    status' := status;
    var j := 0;
    while j < |parsed|
      invariant 0 <= j <= |parsed|
      invariant Evolves(status, status')
      invariant SafeSound(graph, status')
      invariant valid ==> forall m :: 0 <= m < j ==> Derives(graph, {}, parsed[m], height)
      invariant complete ==> valid
    {
      if complete {
        assert Derives(graph, VisitingSet(status'), parsed[j], h);
      }
      var tokenSafe;
      ghost var before := status';
      tokenSafe, status' := Dfs(parsed[j], graph, status');
      EvolvesTransitive(status, before, status');
      if valid && tokenSafe {
        height := RaiseHeight(graph, parsed, j, height);
      }
      valid := valid && tokenSafe;
      j := j + 1;
    }
  }

  /** One height that bounds derivations of the first `j + 1` tokens. */
  lemma RaiseHeight(g: Rules, toks: seq<string>, j: nat, height: nat) returns (newHeight: nat)
    requires j < |toks| && Productive(g, toks[j])
    requires forall m :: 0 <= m < j ==> Derives(g, {}, toks[m], height)
    ensures forall m :: 0 <= m <= j ==> Derives(g, {}, toks[m], newHeight)
  {
    var n: nat :| Derives(g, {}, toks[j], n);
    newHeight := if n < height then height else n;
    forall m | 0 <= m <= j ensures Derives(g, {}, toks[m], newHeight) {
      if m < j {
        DerivesMono(g, {}, toks[m], height, newHeight);
      } else {
        DerivesMono(g, {}, toks[m], n, newHeight);
      }
    }
  }

  /** `reset_validation`: every key of the rules, UNVISITED. */
  function ResetValidation(rules: Rules): (r: StatusMap)
    ensures r.Keys == rules.Keys
    ensures forall k :: k in r ==> r[k] == Unvisited
  {
    map k | k in rules :: Unvisited
  }

  /**
   * The top-level loop of `validate`: starting from a map with every key UNVISITED,
   * search from each key in turn, in any order, and record SAFE or UNSAFE for it.
   * Whatever the order, the outcome is SAFE exactly for the productive keys.
   */
  method SafetyPass(graph: Rules, init: StatusMap) returns (status: StatusMap)
    requires init.Keys == graph.Keys
    requires forall k :: k in init ==> init[k] == Unvisited
    ensures status == SafetyMap(graph)
  {
    status := init;
    assert VisitingSet(status) == {};
    var remaining := graph.Keys;
    while remaining != {}
      invariant remaining <= graph.Keys
      invariant status.Keys == graph.Keys
      invariant VisitingSet(status) == {}
      invariant SafeSound(graph, status) && UnsafeSound(graph, status)
      invariant forall k :: k in graph && k !in remaining ==> status[k] == Safe || status[k] == Unsafe
      decreases remaining
    {
      var key :| key in remaining;
      var safe;
      safe, status := Dfs(key, graph, status);
      assert safe == Productive(graph, key);
      status := status[key := if safe then Safe else Unsafe];
      assert VisitingSet(status) == {};
      remaining := remaining - {key};
    }
  }

  /** `get_unsafe_keys`: the keys marked UNSAFE, as a set (the source's order is the hash map's). */
  function UnsafeKeys(status: StatusMap): set<string>
  {
    set k | k in status && status[k] == Unsafe
  }

  /** After the safety pass, the UNSAFE keys are exactly the non-terminals with no finite derivation. */
  lemma UnsafeKeysOfSafetyMap(g: Rules)
    ensures UnsafeKeys(SafetyMap(g)) == set k | k in g && !Productive(g, k)
  {
  }

  /** Every key marked SAFE by the reachability walk is reachable from `root`. */
  ghost predicate SafeReachable(g: Rules, s: StatusMap, root: string)
  {
    forall k :: k in s && s[k] == Safe ==> Reachable(g, root, k)
  }

  /**
   * Every SAFE key outside `pending` has had all of its successors visited: none of
   * them is still UNVISITED. `pending` holds the keys whose walk is in progress.
   */
  ghost predicate Closed(g: Rules, s: StatusMap, pending: set<string>)
  {
    forall a, b :: a in s && s[a] == Safe && a !in pending && Edge(g, a, b) && b in s ==> s[b] != Unvisited
  }

  /** What the reachability walk must produce: SAFE exactly for the keys reachable from `start`. */
  ghost function ReachMap(g: Rules, start: string): (r: StatusMap)
    ensures r.Keys == g.Keys
    ensures forall k :: k in r ==> r[k] == Safe || r[k] == Unvisited
    ensures start in g ==> r[start] == Safe
  {
    assert ReachableIn(g, start, start, 0);
    map k | k in g :: if Reachable(g, start, k) then Safe else Unvisited
  }

  /** The walk only turns UNVISITED entries into SAFE ones. */
  ghost predicate OnlyMarks(before: StatusMap, after: StatusMap)
  {
    && after.Keys == before.Keys
    && forall k :: k in before ==> after[k] == before[k] || (before[k] == Unvisited && after[k] == Safe)
  }

  /**
   * `find_reachable`: an UNVISITED node is marked SAFE and the walk continues into
   * every token of every alternative (`MarkAndWalk`); a SAFE node, a node with
   * another status and a token with no entry are left alone. `root` is the token
   * the whole walk started from and `pending` the nodes whose walk is in progress.
   */
  method FindReachable(node: string, graph: Rules, status: StatusMap, ghost root: string, ghost pending: set<string>)
    returns (status': StatusMap)
    requires Reachable(graph, root, node)
    requires SafeReachable(graph, status, root)
    requires Closed(graph, status, pending)
    ensures OnlyMarks(status, status')
    ensures node in status && (status[node] == Unvisited || status[node] == Safe) ==> status'[node] == Safe
    ensures SafeReachable(graph, status', root)
    ensures Closed(graph, status', pending)
    decreases |UnvisitedSet(status)|, 1
  {
    if node !in status {
      return status;
    }
    match status[node]
    case Safe =>
      status' := status;
    case Unvisited =>
      status' := MarkAndWalk(node, graph, status, root, pending);
    case Visiting | Unsafe =>
      status' := status;
  }

  /** The UNVISITED arm of `find_reachable`: mark `node` SAFE, then walk every alternative. */
  method MarkAndWalk(node: string, graph: Rules, status: StatusMap, ghost root: string, ghost pending: set<string>)
    returns (status': StatusMap)
    requires node in status && status[node] == Unvisited
    requires Reachable(graph, root, node)
    requires SafeReachable(graph, status, root)
    requires Closed(graph, status, pending)
    ensures OnlyMarks(status, status') && status'[node] == Safe
    ensures SafeReachable(graph, status', root)
    ensures Closed(graph, status', pending)
    decreases |UnvisitedSet(status)|, 0
  {
    var cur := status[node := Safe];
    if node in graph {
      var options := graph[node];
      var i := 0;
      while i < |options|
        invariant 0 <= i <= |options|
        invariant OnlyMarks(status, cur) && cur[node] == Safe
        invariant SafeReachable(graph, cur, root)
        invariant Closed(graph, cur, pending + {node})
        invariant forall ii, b :: 0 <= ii < i && b in SplitWhitespace(options[ii]) && b in cur ==> cur[b] != Unvisited
      {
        forall tok | tok in SplitWhitespace(options[i]) ensures Reachable(graph, root, tok) {
          ReachableSuccessor(graph, root, node, i, tok);
        }
        MarkShrinks(status, cur, node);
        cur := WalkOption(options[i], graph, cur, root, pending + {node});
        i := i + 1;
      }
    }
    status' := cur;
  }

  /** The walk over the tokens of one alternative, in order. */
  method WalkOption(option: string, graph: Rules, status: StatusMap, ghost root: string, ghost pending: set<string>)
    returns (status': StatusMap)
    requires forall tok :: tok in SplitWhitespace(option) ==> Reachable(graph, root, tok)
    requires SafeReachable(graph, status, root)
    requires Closed(graph, status, pending)
    ensures OnlyMarks(status, status')
    ensures forall tok :: tok in SplitWhitespace(option) && tok in status' ==> status'[tok] != Unvisited
    ensures SafeReachable(graph, status', root)
    ensures Closed(graph, status', pending)
    decreases |UnvisitedSet(status)|, 2
  {
    var parsed := ParseSubunits(option);
    status' := status;
    var j := 0;
    while j < |parsed|
      invariant 0 <= j <= |parsed|
      invariant OnlyMarks(status, status')
      invariant SafeReachable(graph, status', root)
      invariant Closed(graph, status', pending)
      invariant forall m :: 0 <= m < j && parsed[m] in status' ==> status'[parsed[m]] != Unvisited
    {
      UnvisitedShrink(status, status');
      ghost var before := status';
      status' := FindReachable(parsed[j], graph, status', root, pending);
      forall m | 0 <= m <= j && parsed[m] in status' ensures status'[parsed[m]] != Unvisited {
        if m < j {
          assert before[parsed[m]] != Unvisited;
        }
      }
      j := j + 1;
    }
  }

  lemma UnvisitedShrink(status: StatusMap, cur: StatusMap)
    requires OnlyMarks(status, cur)
    ensures |UnvisitedSet(cur)| <= |UnvisitedSet(status)|
  {
    SubsetCardinality(UnvisitedSet(cur), UnvisitedSet(status));
  }

  lemma {:induction false} SubsetCardinality<T>(a: set<T>, b: set<T>)
    requires a <= b
    ensures |a| <= |b|
    ensures a < b ==> |a| < |b|
    decreases a
  {
    if a != {} {
      var x :| x in a;
      SubsetCardinality(a - {x}, b - {x});
    } else if a < b {
      var y :| y in b;
    }
  }

  lemma MarkShrinks(status: StatusMap, cur: StatusMap, node: string)
    requires OnlyMarks(status, cur)
    requires node in status && status[node] == Unvisited && cur[node] == Safe
    ensures |UnvisitedSet(cur)| < |UnvisitedSet(status)|
  {
    assert node in UnvisitedSet(status) - UnvisitedSet(cur);
    SubsetCardinality(UnvisitedSet(cur), UnvisitedSet(status));
  }

  lemma ReachableSuccessor(g: Rules, root: string, node: string, i: nat, tok: string)
    requires Reachable(g, root, node)
    requires node in g && i < |g[node]| && tok in SplitWhitespace(g[node][i])
    ensures Reachable(g, root, tok)
  {
    var n :| ReachableIn(g, root, node, n);
    ReachableStep(g, root, node, tok, n);
  }

  /**
   * After the walk from `start` over a map whose keys are the rule keys, every key
   * is SAFE when reachable from `start` and UNVISITED otherwise.
   */
  lemma ReachabilityMapOfWalk(g: Rules, start: string, s: StatusMap)
    requires s.Keys == g.Keys
    requires forall k :: k in s ==> s[k] == Safe || s[k] == Unvisited
    requires start in s ==> s[start] == Safe
    requires SafeReachable(g, s, start)
    requires Closed(g, s, {})
    ensures s == ReachMap(g, start)
  {
    forall k | k in s && Reachable(g, start, k) ensures s[k] == Safe {
      var n :| ReachableIn(g, start, k, n);
      if start in s {
        ClosedPath(g, s, start, k, n);
      }
    }
  }

  lemma {:induction false} ClosedPath(g: Rules, s: StatusMap, a: string, k: string, n: nat)
    requires s.Keys == g.Keys
    requires forall x :: x in s ==> s[x] == Safe || s[x] == Unvisited
    requires Closed(g, s, {})
    requires a in s && s[a] == Safe && k in s && ReachableIn(g, a, k, n)
    ensures s[k] == Safe
    decreases n
  {
    if a != k {
      var c :| Edge(g, a, c) && ReachableIn(g, c, k, n - 1);
      if c in s {
        ClosedPath(g, s, c, k, n - 1);
      }
    }
  }

  /** The filter of `get_unreachable_nonterminals`: the keys not marked SAFE, as a set. */
  function NotSafeKeys(status: StatusMap): set<string>
  {
    set k | k in status && status[k] != Safe
  }

  /** After the reachability walk, the keys not marked SAFE are exactly the unreachable non-terminals. */
  lemma NotSafeKeysOfReachMap(g: Rules, start: string)
    ensures NotSafeKeys(ReachMap(g, start)) == set k | k in g && !Reachable(g, start, k)
  {
  }

  /** A start token that is not a key reaches no key: every key is unreachable. */
  lemma UnknownStartReachesNothing(g: Rules, start: string)
    requires start !in g
    ensures (set k | k in g && !Reachable(g, start, k)) == g.Keys
  {
    forall k, n: nat | k in g ensures !ReachableIn(g, start, k, n) {
      assert !exists c :: Edge(g, start, c);
    }
  }
}
