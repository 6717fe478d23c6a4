/**
 * What the validator computes, stated independently of how it computes it.
 *
 * A token is productive ("safe") when it has a finite derivation down to terminal
 * tokens: it is a terminal, or one of its alternatives consists only of productive
 * tokens. `Derives(g, avoid, t, n)` is the height-bounded form of this, with the
 * extra condition that no non-terminal of the derivation lies in `avoid`; the
 * validator's depth-first search needs it for the non-terminals that are on the
 * current search path.
 *
 * A token is reachable from another when it can be reached by repeatedly stepping
 * from a non-terminal to a token of one of its alternatives.
 *
 * The tokens of an alternative are its whitespace-separated words, which is what
 * `parse_subunits` returns (`RuleStore.ParseSubunits`).
 */
module Derivation {
  import opened Text
  import opened RuleStore

  ghost predicate Derives(g: Rules, avoid: set<string>, t: string, n: nat)
    decreases n, 0
  {
    || t !in g
    || (&& t !in avoid
        && n > 0
        && exists i :: 0 <= i < |g[t]| && AllDerive(g, avoid, SplitWhitespace(g[t][i]), n - 1))
  }

  ghost predicate AllDerive(g: Rules, avoid: set<string>, toks: seq<string>, n: nat)
    decreases n, 1
  {
    forall tok :: tok in toks ==> Derives(g, avoid, tok, n)
  }

  /** `t` has a finite derivation into terminals. */
  ghost predicate Productive(g: Rules, t: string)
  {
    exists n :: Derives(g, {}, t, n)
  }

  /** More height never hurts. */
  lemma {:induction false} DerivesMono(g: Rules, avoid: set<string>, t: string, n: nat, m: nat)
    requires n <= m && Derives(g, avoid, t, n)
    ensures Derives(g, avoid, t, m)
    decreases n
  {
    if t in g {
      var i :| 0 <= i < |g[t]| && AllDerive(g, avoid, SplitWhitespace(g[t][i]), n - 1);
      forall tok | tok in SplitWhitespace(g[t][i]) ensures Derives(g, avoid, tok, m - 1) {
        DerivesMono(g, avoid, tok, n - 1, m - 1);
      }
    }
  }

  /** Avoiding fewer non-terminals never hurts. */
  lemma {:induction false} DerivesAvoidLess(g: Rules, avoid: set<string>, fewer: set<string>, t: string, n: nat)
    requires fewer <= avoid && Derives(g, avoid, t, n)
    ensures Derives(g, fewer, t, n)
    decreases n
  {
    if t in g {
      var i :| 0 <= i < |g[t]| && AllDerive(g, avoid, SplitWhitespace(g[t][i]), n - 1);
      forall tok | tok in SplitWhitespace(g[t][i]) ensures Derives(g, fewer, tok, n - 1) {
        DerivesAvoidLess(g, avoid, fewer, tok, n - 1);
      }
    }
  }

  /**
   * A derivation of `x` that may pass through `t` either avoids `t` altogether, or
   * contains a derivation of `t` itself that is no higher.
   */
  lemma {:induction false} DerivesSplit(g: Rules, avoid: set<string>, x: string, t: string, n: nat)
    requires Derives(g, avoid, x, n)
    ensures Derives(g, avoid + {t}, x, n) || Derives(g, avoid, t, n)
    decreases n
  {
    if x in g && x != t {
      var i :| 0 <= i < |g[x]| && AllDerive(g, avoid, SplitWhitespace(g[x][i]), n - 1);
      var toks := SplitWhitespace(g[x][i]);
      if tok :| tok in toks && !Derives(g, avoid + {t}, tok, n - 1) {
        DerivesSplit(g, avoid, tok, t, n - 1);
        DerivesMono(g, avoid, t, n - 1, n);
      } else {
        assert AllDerive(g, avoid + {t}, toks, n - 1);
      }
    }
  }

  /**
   * When a non-terminal `t` outside `avoid` derives while avoiding `avoid`, one of
   * its alternatives derives while avoiding `avoid` and `t` as well: take a
   * derivation of least height, which cannot contain `t` again.
   */
  lemma AvoidingAlternative(g: Rules, avoid: set<string>, t: string, n: nat) returns (w: nat, h: nat)
    requires t in g && Derives(g, avoid, t, n)
    ensures w < |g[t]| && AllDerive(g, avoid + {t}, SplitWhitespace(g[t][w]), h)
  {
    var least := 0;
    while !Derives(g, avoid, t, least)
      invariant least <= n
      invariant forall m :: 0 <= m < least ==> !Derives(g, avoid, t, m)
      decreases n - least
    {
      least := least + 1;
    }
    h := least - 1;
    w :| 0 <= w < |g[t]| && AllDerive(g, avoid, SplitWhitespace(g[t][w]), h);
    forall tok | tok in SplitWhitespace(g[t][w]) ensures Derives(g, avoid + {t}, tok, h) {
      DerivesSplit(g, avoid, tok, t, h);
    }
  }

  /** `b` is a token of one of the alternatives of the non-terminal `a`. */
  ghost predicate Edge(g: Rules, a: string, b: string)
  {
    a in g && exists i :: 0 <= i < |g[a]| && b in SplitWhitespace(g[a][i])
  }

  /** `b` is reached from `a` in at most `n` steps. */
  ghost predicate ReachableIn(g: Rules, a: string, b: string, n: nat)
    decreases n
  {
    a == b || (n > 0 && exists c :: Edge(g, a, c) && ReachableIn(g, c, b, n - 1))
  }

  ghost predicate Reachable(g: Rules, a: string, b: string)
  {
    exists n :: ReachableIn(g, a, b, n)
  }

  /** A path can be extended by one more step at its end. */
  lemma {:induction false} ReachableStep(g: Rules, a: string, b: string, c: string, n: nat)
    requires ReachableIn(g, a, b, n) && Edge(g, b, c)
    ensures ReachableIn(g, a, c, n + 1)
    decreases n
  {
    if a == b {
      assert ReachableIn(g, c, c, n);
    } else {
      var d :| Edge(g, a, d) && ReachableIn(g, d, b, n - 1);
      ReachableStep(g, d, b, c, n - 1);
    }
  }

  /**
   * Adding alternatives to an existing non-terminal never loses a derivation: a
   * token that was safe stays safe after `rule_add` on a key already present.
   */
  lemma {:induction false} DerivesExtend(g: Rules, key: string, alts: seq<string>, t: string, n: nat)
    requires key in g
    requires Derives(g, {}, t, n)
    ensures Derives(AddAlternatives(g, key, alts), {}, t, n)
    decreases n
  {
    var g' := AddAlternatives(g, key, alts);
    if t in g {
      var i :| 0 <= i < |g[t]| && AllDerive(g, {}, SplitWhitespace(g[t][i]), n - 1);
      assert g'[t][i] == g[t][i];
      forall tok | tok in SplitWhitespace(g'[t][i]) ensures Derives(g', {}, tok, n - 1) {
        DerivesExtend(g, key, alts, tok, n - 1);
      }
    }
  }

  lemma ProductiveExtend(g: Rules, key: string, alts: seq<string>, t: string)
    requires key in g && Productive(g, t)
    ensures Productive(AddAlternatives(g, key, alts), t)
  {
    var n :| Derives(g, {}, t, n);
    DerivesExtend(g, key, alts, t, n);
  }
}
