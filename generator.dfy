/**
 * The random sentence generator. The random source is an oracle `rng`: the k-th
 * random draw of a run is `rng(k)`, and every function threads the index `next` of
 * the first unused draw. The expansion has no cycle guard, so it is bounded by
 * `fuel` (the nesting depth of non-terminal expansions); `OutOfFuel` stands for a
 * run that would not have finished within that depth.
 */
module Generator {
  import opened Wrappers
  import opened Text
  import opened RuleStore
  import opened Derivation

  /** `get_random_from_vector`: the element selected by `draw`, or "" for an empty list. */
  function Pick(options: seq<string>, draw: nat): (r: string)
    ensures options == [] ==> r == ""
    ensures options != [] ==> r in options
  {
    if options == [] then "" else options[draw % |options|]
  }

  /**
   * `build_random`: a token that is not a key is a terminal and yields itself after
   * one space; a key yields the expansions of the tokens of one randomly picked
   * alternative, concatenated in order.
   */
  function BuildRandom(g: Rules, key: string, rng: nat -> nat, next: nat, fuel: nat): Outcome<string>
    decreases fuel, 0, 0
  {
    if key !in g then Done(" " + key, next)
    else if fuel == 0 then OutOfFuel
    else
      var choice := Pick(g[key], rng(next));
      BuildAll(g, ParseSubunits(choice), rng, next + 1, fuel - 1)
  }

  /** The loop of `build_random` over the tokens of the chosen alternative. */
  function BuildAll(g: Rules, toks: seq<string>, rng: nat -> nat, next: nat, fuel: nat): Outcome<string>
    decreases fuel, 1, |toks|
  {
    if toks == [] then Done("", next)
    else
      match BuildRandom(g, toks[0], rng, next, fuel)
      case OutOfFuel => OutOfFuel
      case Done(head, n) => Prefix(head, BuildAll(g, toks[1..], rng, n, fuel))
  }

  /** `x` followed by the text of `o`, if `o` finished. */
  function Prefix(x: string, o: Outcome<string>): Outcome<string>
  {
    match o
    case OutOfFuel => OutOfFuel
    case Done(y, n) => Done(x + y, n)
  }

  /** The expansion of the tokens of `a` continued with the expansion of those of `b`. */
  function Then(g: Rules, o: Outcome<string>, b: seq<string>, rng: nat -> nat, fuel: nat): Outcome<string>
  {
    match o
    case OutOfFuel => OutOfFuel
    case Done(x, n) => Prefix(x, BuildAll(g, b, rng, n, fuel))
  }

  /**
   * Expanding a token sequence is expanding any split of it, left part first: the
   * text is the in-order concatenation and the random draws are consumed in order.
   */
  lemma {:induction false} BuildAllAppend(g: Rules, a: seq<string>, b: seq<string>, rng: nat -> nat, next: nat, fuel: nat)
    ensures BuildAll(g, a + b, rng, next, fuel) == Then(g, BuildAll(g, a, rng, next, fuel), b, rng, fuel)
    decreases |a|
  {
    if a == [] {
      assert a + b == b;
      match BuildAll(g, b, rng, next, fuel)
      case OutOfFuel =>
      case Done(y, n) => assert "" + y == y;
    } else {
      assert (a + b)[0] == a[0] && (a + b)[1..] == a[1..] + b;
      match BuildRandom(g, a[0], rng, next, fuel)
      case OutOfFuel =>
      case Done(head, n) =>
        BuildAllAppend(g, a[1..], b, rng, n, fuel);
        match BuildAll(g, a[1..], rng, n, fuel)
        case OutOfFuel =>
        case Done(mid, n2) =>
          match BuildAll(g, b, rng, n2, fuel)
          case OutOfFuel =>
          case Done(tail, n3) => assert head + (mid + tail) == (head + mid) + tail;
    }
  }

  /** More fuel does not change a finished expansion. */
  lemma {:induction false} BuildRandomFuel(g: Rules, key: string, rng: nat -> nat, next: nat, fuel: nat, more: nat)
    requires fuel <= more && BuildRandom(g, key, rng, next, fuel).Done?
    ensures BuildRandom(g, key, rng, next, more) == BuildRandom(g, key, rng, next, fuel)
    decreases fuel, 0, 0
  {
    if key in g {
      BuildAllFuel(g, ParseSubunits(Pick(g[key], rng(next))), rng, next + 1, fuel - 1, more - 1);
    }
  }

  lemma {:induction false} BuildAllFuel(g: Rules, toks: seq<string>, rng: nat -> nat, next: nat, fuel: nat, more: nat)
    requires fuel <= more && BuildAll(g, toks, rng, next, fuel).Done?
    ensures BuildAll(g, toks, rng, next, more) == BuildAll(g, toks, rng, next, fuel)
    decreases fuel, 1, |toks|
  {
    if toks != [] {
      BuildRandomFuel(g, toks[0], rng, next, fuel, more);
      var n := BuildRandom(g, toks[0], rng, next, fuel).next;
      BuildAllFuel(g, toks[1..], rng, n, fuel, more);
    }
  }

  /**
   * A finished expansion is a derivation: when every key has an alternative, a key
   * from which some run of the generator produced text is one the validator marks
   * SAFE, with a derivation no higher than the fuel used.
   */
  lemma {:induction false} BuildRandomDerives(g: Rules, key: string, rng: nat -> nat, next: nat, fuel: nat)
    requires EveryKeyHasAlternative(g)
    requires BuildRandom(g, key, rng, next, fuel).Done?
    ensures Derives(g, {}, key, fuel)
    decreases fuel, 0, 0
  {
    if key in g {
      var w := rng(next) % |g[key]|;
      BuildAllDerives(g, ParseSubunits(g[key][w]), rng, next + 1, fuel - 1);
    }
  }

  lemma {:induction false} BuildAllDerives(g: Rules, toks: seq<string>, rng: nat -> nat, next: nat, fuel: nat)
    requires EveryKeyHasAlternative(g)
    requires BuildAll(g, toks, rng, next, fuel).Done?
    ensures AllDerive(g, {}, toks, fuel)
    decreases fuel, 1, |toks|
  {
    if toks != [] {
      BuildRandomDerives(g, toks[0], rng, next, fuel);
      var n := BuildRandom(g, toks[0], rng, next, fuel).next;
      BuildAllDerives(g, toks[1..], rng, n, fuel);
      forall tok | tok in toks ensures Derives(g, {}, tok, fuel) {
        if tok != toks[0] {
          assert tok in toks[1..];
        }
      }
    }
  }

  /**
   * The converse view: from a non-terminal with no finite derivation, no choice of
   * random draws and no amount of fuel lets the generator finish.
   */
  lemma UnsafeNeverFinishes(g: Rules, key: string, rng: nat -> nat, next: nat, fuel: nat)
    requires EveryKeyHasAlternative(g)
    requires !Productive(g, key)
    ensures BuildRandom(g, key, rng, next, fuel) == OutOfFuel
  {
    if BuildRandom(g, key, rng, next, fuel).Done? {
      BuildRandomDerives(g, key, rng, next, fuel);
    }
  }

  /**
   * A finished expansion of a token list is its terminal tokens, each after one
   * space: re-tokenising the text gives exactly those tokens, and none of them is a key.
   */
  lemma {:induction false} BuildAllYield(g: Rules, toks: seq<string>, rng: nat -> nat, next: nat, fuel: nat)
    returns (terminals: seq<string>)
    requires forall i :: 0 <= i < |toks| ==> toks[i] != [] && NoWhitespace(toks[i])
    requires BuildAll(g, toks, rng, next, fuel).Done?
    ensures BuildAll(g, toks, rng, next, fuel).value == Spaced(terminals)
    ensures forall i :: 0 <= i < |terminals| ==> terminals[i] !in g && terminals[i] != [] && NoWhitespace(terminals[i])
    ensures SplitWhitespace(Spaced(terminals)) == terminals
    decreases fuel, 1, |toks|
  {
    if toks == [] {
      terminals := [];
    } else {
      var first := BuildRandomYield(g, toks[0], rng, next, fuel);
      var n := BuildRandom(g, toks[0], rng, next, fuel).next;
      var rest := BuildAllYield(g, toks[1..], rng, n, fuel);
      terminals := first + rest;
      SpacedAppend(first, rest);
    }
    SplitWhitespaceSpaced(terminals);
  }

  /** A finished expansion of one token is its terminal tokens, each after one space. */
  lemma {:induction false} BuildRandomYield(g: Rules, key: string, rng: nat -> nat, next: nat, fuel: nat)
    returns (terminals: seq<string>)
    requires key != [] && NoWhitespace(key)
    requires BuildRandom(g, key, rng, next, fuel).Done?
    ensures BuildRandom(g, key, rng, next, fuel).value == Spaced(terminals)
    ensures forall i :: 0 <= i < |terminals| ==> terminals[i] !in g && terminals[i] != [] && NoWhitespace(terminals[i])
    decreases fuel, 0, 0
  {
    if key in g {
      var choice := Pick(g[key], rng(next));
      terminals := BuildAllYield(g, ParseSubunits(choice), rng, next + 1, fuel - 1);
    } else {
      terminals := [key];
      assert Spaced(terminals) == " " + key + Spaced([]);
    }
  }

  lemma {:induction false} SpacedAppend(a: seq<string>, b: seq<string>)
    ensures Spaced(a + b) == Spaced(a) + Spaced(b)
  {
    if a == [] {
      assert a + b == b;
    } else {
      assert (a + b)[0] == a[0] && (a + b)[1..] == a[1..] + b;
      SpacedAppend(a[1..], b);
    }
  }

  /** A generated sentence: not empty, and ending with a full stop. */
  predicate IsSentence(s: string)
  {
    s != [] && s[|s| - 1] == '.'
  }

  /**
   * The formatting step of `generate_sentence`: trim, append a full stop, and
   * upper-case the first character. The result is a sentence whose visible
   * characters are those of the text, first one capitalised, then the stop.
   */
  function FormatSentence(text: string): (r: string)
    ensures IsSentence(r)
    ensures |r| == |Trim(text)| + 1
    ensures Trim(text) != [] ==> r[0] == ToUpper(Trim(text)[0]) && r[1..|r| - 1] == Trim(text)[1..]
  {
    EndSentence(Trim(text))
  }

  /** The full stop and the capital letter of `generate_sentence`, on text already trimmed. */
  function EndSentence(t: string): (r: string)
    ensures IsSentence(r)
    ensures |r| == |t| + 1
    ensures t != [] ==> r[0] == ToUpper(t[0]) && r[1..|r| - 1] == t[1..]
  {
    var s := t + ".";
    assert s[|s| - 1] == '.';
    Capitalize(s)
  }

  /**
   * `generate_sentence`: the expansion, trimmed, with a full stop appended and the
   * first character capitalised. It is never empty and always ends with the stop.
   */
  function GenerateSentence(g: Rules, key: string, rng: nat -> nat, next: nat, fuel: nat): (r: Outcome<string>)
    ensures r.Done? ==> IsSentence(r.value)
    ensures r.Done? <==> BuildRandom(g, key, rng, next, fuel).Done?
  {
    match BuildRandom(g, key, rng, next, fuel)
    case OutOfFuel => OutOfFuel
    case Done(text, n) => Done(FormatSentence(text), n)
  }

  /** `generate_sentences` as a value: `count` sentences generated one after another. */
  function Sentences(g: Rules, key: string, count: nat, rng: nat -> nat, next: nat, fuel: nat): Outcome<seq<string>>
  {
    if count == 0 then Done([], next)
    else
      match GenerateSentence(g, key, rng, next, fuel)
      case OutOfFuel => OutOfFuel
      case Done(s, n) => Prepend([s], Sentences(g, key, count - 1, rng, n, fuel))
  }

  /** `xs` followed by the sentences of `o`, if `o` finished. */
  function Prepend(xs: seq<string>, o: Outcome<seq<string>>): Outcome<seq<string>>
  {
    match o
    case OutOfFuel => OutOfFuel
    case Done(ys, n) => Done(xs + ys, n)
  }

  lemma PrependNil(o: Outcome<seq<string>>)
    ensures Prepend([], o) == o
  {
    match o
    case OutOfFuel =>
    case Done(ys, n) => assert [] + ys == ys;
  }

  lemma PrependPrepend(xs: seq<string>, ys: seq<string>, o: Outcome<seq<string>>)
    ensures Prepend(xs, Prepend(ys, o)) == Prepend(xs + ys, o)
  {
    match o
    case OutOfFuel =>
    case Done(zs, n) => assert xs + (ys + zs) == (xs + ys) + zs;
  }

  /**
   * One turn of the `generate_sentences` loop: with `sentences` collected and `remaining`
   * still to go from draw `cursor`, a generated sentence is appended to what is collected.
   */
  lemma SentencesAdvance(g: Rules, key: string, total: nat, rng: nat -> nat, next: nat, fuel: nat,
                         sentences: seq<string>, remaining: nat, cursor: nat)
    requires remaining > 0 && GenerateSentence(g, key, rng, cursor, fuel).Done?
    requires Sentences(g, key, total, rng, next, fuel)
             == Prepend(sentences, Sentences(g, key, remaining, rng, cursor, fuel))
    ensures Sentences(g, key, total, rng, next, fuel)
            == Prepend(sentences + [GenerateSentence(g, key, rng, cursor, fuel).value],
                       Sentences(g, key, remaining - 1, rng, GenerateSentence(g, key, rng, cursor, fuel).next, fuel))
  {
    var first := GenerateSentence(g, key, rng, cursor, fuel);
    PrependPrepend(sentences, [first.value], Sentences(g, key, remaining - 1, rng, first.next, fuel));
  }

  /** A generation that runs out of fuel ends the whole loop without a result. */
  lemma SentencesStop(g: Rules, key: string, total: nat, rng: nat -> nat, next: nat, fuel: nat,
                      sentences: seq<string>, remaining: nat, cursor: nat)
    requires remaining > 0 && GenerateSentence(g, key, rng, cursor, fuel).OutOfFuel?
    requires Sentences(g, key, total, rng, next, fuel)
             == Prepend(sentences, Sentences(g, key, remaining, rng, cursor, fuel))
    ensures Sentences(g, key, total, rng, next, fuel) == OutOfFuel
  {
  }

  /** Exactly `count` sentences, each non-empty and ending with a full stop. */
  lemma {:induction false} SentencesShape(g: Rules, key: string, count: nat, rng: nat -> nat, next: nat, fuel: nat)
    requires Sentences(g, key, count, rng, next, fuel).Done?
    ensures |Sentences(g, key, count, rng, next, fuel).value| == count
    ensures forall s :: s in Sentences(g, key, count, rng, next, fuel).value ==> IsSentence(s)
  {
    if count > 0 {
      var first, n := SentencesUnfold(g, key, count, rng, next, fuel);
      SentencesShape(g, key, count - 1, rng, n, fuel);
      PrependSentences(first, count - 1, Sentences(g, key, count - 1, rng, n, fuel));
    }
  }

  /** A finished run of generations starts with a sentence, followed by a finished shorter run. */
  lemma SentencesUnfold(g: Rules, key: string, count: nat, rng: nat -> nat, next: nat, fuel: nat)
    returns (first: string, n: nat)
    requires count > 0 && Sentences(g, key, count, rng, next, fuel).Done?
    ensures IsSentence(first)
    ensures Sentences(g, key, count - 1, rng, n, fuel).Done?
    ensures Sentences(g, key, count, rng, next, fuel) == Prepend([first], Sentences(g, key, count - 1, rng, n, fuel))
  {
    var o := GenerateSentence(g, key, rng, next, fuel);
    first, n := o.value, o.next;
  }

  /** One more sentence in front keeps every element a sentence and adds one to the length. */
  lemma PrependSentences(first: string, count: nat, rest: Outcome<seq<string>>)
    requires IsSentence(first) && rest.Done?
    requires |rest.value| == count && forall s :: s in rest.value ==> IsSentence(s)
    ensures |Prepend([first], rest).value| == count + 1
    ensures forall s :: s in Prepend([first], rest).value ==> IsSentence(s)
  {
  }
}
