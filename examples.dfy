/**
 * The unit tests of `src/grammar.rs` and `src/grammar/grammar.rs`, stated over
 * the model: each fixes the grammar of one test and proves the outcome the test
 * asserts.
 */
module GrammarExamples {
  import opened Wrappers
  import opened Text
  import opened RuleStore
  import opened Derivation
  import opened Validation
  import opened Generator
  import Grammar

  /** `test_parse_subunits`. */
  lemma ParseSubunitsExample()
    ensures ParseSubunits("<id> <noun>") == ["<id>", "<noun>"]
  {
    var ts := ["<id>", "<noun>"];
    assert NoWhitespace(ts[0]) && NoWhitespace(ts[1]);
    SplitWhitespaceSpaced(ts);
    assert Spaced(ts) == " <id> <noun>";
    assert Spaced(ts)[1..] == "<id> <noun>";
  }

  /** Two non-terminals whose only alternative is each other never derive anything. */
  lemma {:induction false} TwoCycleNeverDerives(g: Rules, a: string, b: string, n: nat)
    requires a in g && g[a] == [b] && b in g && g[b] == [a]
    requires SplitWhitespace(a) == [a] && SplitWhitespace(b) == [b]
    ensures !Derives(g, {}, a, n) && !Derives(g, {}, b, n)
  {
    if n > 0 {
      TwoCycleNeverDerives(g, a, b, n - 1);
    }
  }

  /** A non-terminal with a one-token alternative derives one level above that token. */
  lemma SingleTokenStep(g: Rules, t: string, i: nat, w: string, n: nat)
    requires t in g && i < |g[t]| && SplitWhitespace(g[t][i]) == [w]
    requires Derives(g, {}, w, n)
    ensures Derives(g, {}, t, n + 1)
  {
    assert AllDerive(g, {}, SplitWhitespace(g[t][i]), n);
  }

  /** The safety map, given which keys are productive. */
  lemma SafetyMapOf(g: Rules, safe: set<string>)
    requires forall k :: k in g ==> (Productive(g, k) <==> k in safe)
    ensures SafetyMap(g) == map k | k in g :: if k in safe then Safe else Unsafe
  {
  }

  /** The rules of `test_validation_1`, as parsed from `<sentence> = <vp> | np`, `<vp> = noun`, `noun = <vp>`. */
  function CycleRules(): Rules
  {
    map["<sentence>" := ["<vp>", "np"], "<vp>" := ["noun"], "noun" := ["<vp>"]]
  }

  lemma CycleProductivity()
    ensures forall k :: k in CycleRules() ==> (Productive(CycleRules(), k) <==> k == "<sentence>")
  {
    SentenceExit();
    CycleStuck();
    assert CycleRules().Keys == {"<sentence>", "<vp>", "noun"};
  }

  lemma SentenceExit()
    ensures Productive(CycleRules(), "<sentence>")
  {
    SplitWhitespaceWord("np");
    SingleTokenStep(CycleRules(), "<sentence>", 1, "np", 0);
  }

  lemma CycleStuck()
    ensures !Productive(CycleRules(), "<vp>") && !Productive(CycleRules(), "noun")
  {
    var g := CycleRules();
    SplitWhitespaceWord("noun");
    SplitWhitespaceWord("<vp>");
    forall n: nat ensures !Derives(g, {}, "<vp>", n) && !Derives(g, {}, "noun", n) {
      TwoCycleNeverDerives(g, "<vp>", "noun", n);
    }
  }

  /** `test_validation_1`: `<sentence>` is SAFE through `np`, the cycle is UNSAFE. */
  lemma ValidationExample1()
    ensures SafetyMap(CycleRules()) == map["<sentence>" := Safe, "<vp>" := Unsafe, "noun" := Unsafe]
  {
    CycleProductivity();
    SafetyMapOf(CycleRules(), {"<sentence>"});
  }

  /** `test_validation_1` run on the grammar object: the validator reports exactly the cycle. */
  method TestValidation1() returns (r: Result<(), set<string>>, validation: StatusMap)
    ensures r == Err({"<vp>", "noun"})
    ensures validation == map["<sentence>" := Safe, "<vp>" := Unsafe, "noun" := Unsafe]
  {
    var grammar := new Grammar.Grammar();
    grammar.RuleAddFromFile(Rule("<sentence>", ["<vp>", "np"]));
    assert grammar.rules == map["<sentence>" := ["<vp>", "np"]];
    grammar.RuleAddFromFile(Rule("<vp>", ["noun"]));
    assert grammar.rules == map["<sentence>" := ["<vp>", "np"], "<vp>" := ["noun"]];
    grammar.RuleAddFromFile(Rule("noun", ["<vp>"]));
    assert grammar.rules == CycleRules();
    r := grammar.Validate();
    validation := grammar.validator.validation;
    ValidationExample1();
    CycleUnsafeKeys();
  }

  lemma CycleUnsafeKeys()
    ensures (set k | k in CycleRules() && !Productive(CycleRules(), k)) == {"<vp>", "noun"}
  {
    CycleProductivity();
  }

  /** The rules `1 = 1 | 2`, `2 = 3` of `test_validation_2`. */
  function SelfLoopRules(): Rules
  {
    map["1" := ["1", "2"], "2" := ["3"]]
  }

  /** The rules `1 = 1 | 2`, `2 = 1 | 3` of `test_validation_3`. */
  function MutualLoopRules(): Rules
  {
    map["1" := ["1", "2"], "2" := ["1", "3"]]
  }

  lemma SelfLoopProductivity()
    ensures Productive(SelfLoopRules(), "1") && Productive(SelfLoopRules(), "2")
  {
    SplitWhitespaceWord("2");
    SplitWhitespaceWord("3");
    SingleTokenStep(SelfLoopRules(), "2", 0, "3", 0);
    SingleTokenStep(SelfLoopRules(), "1", 1, "2", 1);
  }

  lemma MutualLoopProductivity()
    ensures Productive(MutualLoopRules(), "1") && Productive(MutualLoopRules(), "2")
  {
    SplitWhitespaceWord("2");
    SplitWhitespaceWord("3");
    SingleTokenStep(MutualLoopRules(), "2", 1, "3", 0);
    SingleTokenStep(MutualLoopRules(), "1", 1, "2", 1);
  }

  /** `test_validation_2`: a self-recursive key with an exit through a SAFE key is SAFE. */
  lemma ValidationExample2()
    ensures SafetyMap(SelfLoopRules()) == map["1" := Safe, "2" := Safe]
  {
    SelfLoopProductivity();
    SafetyMapOf(SelfLoopRules(), {"1", "2"});
  }

  /** `test_validation_3`: mutually recursive keys with a terminal exit are both SAFE. */
  lemma ValidationExample3()
    ensures SafetyMap(MutualLoopRules()) == map["1" := Safe, "2" := Safe]
  {
    MutualLoopProductivity();
    SafetyMapOf(MutualLoopRules(), {"1", "2"});
  }

  /** The graphs of `test_find_reachable_1` and `test_find_reachable_2`. */
  function ReachGraph1(): Rules
  {
    map["a" := ["a", "b"], "b" := ["c", "d"]]
  }

  function ReachGraph2(): Rules
  {
    map["a" := ["d", "e"], "b" := ["c", "d"]]
  }

  /** The reachability map, given which keys are reachable. */
  lemma ReachMapOf(g: Rules, start: string, reached: set<string>)
    requires forall k :: k in g ==> (Reachable(g, start, k) <==> k in reached)
    ensures ReachMap(g, start) == map k | k in g :: if k in reached then Safe else Unvisited
  {
  }

  lemma Reached1()
    ensures Reachable(ReachGraph1(), "a", "a") && Reachable(ReachGraph1(), "a", "b")
  {
    var g := ReachGraph1();
    SplitWhitespaceWord("b");
    assert g["a"][1] == "b" && "b" in SplitWhitespace(g["a"][1]);
    assert Edge(g, "a", "b");
    assert ReachableIn(g, "b", "b", 0);
    assert ReachableIn(g, "a", "b", 1);
    assert ReachableIn(g, "a", "a", 0);
  }

  /** `test_find_reachable_1`: both keys are reached from `a`. */
  lemma ReachExample1()
    ensures ReachMap(ReachGraph1(), "a") == map["a" := Safe, "b" := Safe]
  {
    Reached1();
    ReachMapOf(ReachGraph1(), "a", {"a", "b"});
  }

  lemma Unreached2()
    ensures !Reachable(ReachGraph2(), "a", "b")
  {
    var g := ReachGraph2();
    SplitWhitespaceWord("d");
    SplitWhitespaceWord("e");
    forall c | Edge(g, "a", c) ensures c !in g {
    }
    forall n: nat ensures !ReachableIn(g, "a", "b", n) {
      if n > 0 {
        forall c | Edge(g, "a", c) ensures !ReachableIn(g, c, "b", n - 1) {
          assert c !in g;
        }
      }
    }
  }

  /** `test_find_reachable_2`: `b` is not reached from `a`. */
  lemma ReachExample2()
    ensures ReachMap(ReachGraph2(), "a") == map["a" := Safe, "b" := Unvisited]
  {
    Unreached2();
    assert ReachableIn(ReachGraph2(), "a", "a", 0);
    ReachMapOf(ReachGraph2(), "a", {"a"});
  }

  /** The walk itself, from an all-UNVISITED map, on the graph of `test_find_reachable_2`. */
  method TestFindReachable2() returns (status: StatusMap)
    ensures status == map["a" := Safe, "b" := Unvisited]
  {
    var graph := ReachGraph2();
    status := ResetValidation(graph);
    assert ReachableIn(graph, "a", "a", 0);
    status := FindReachable("a", graph, status, "a", {});
    ReachabilityMapOfWalk(graph, "a", status);
    ReachExample2();
  }

  /** A one-word grammar: the expansion is the word after one space. */
  lemma BuildRandomExample(rng: nat -> nat, next: nat, fuel: nat)
    requires fuel >= 1
    ensures BuildRandom(map["S" := ["x"]], "S", rng, next, fuel) == Done(" x", next + 1)
  {
    var g := map["S" := ["x"]];
    SplitWhitespaceWord("x");
    assert Pick(g["S"], rng(next)) == "x";
    assert " " + "x" == " x";
    assert BuildRandom(g, "x", rng, next + 1, fuel - 1) == Done(" x", next + 1);
    assert BuildAll(g, [], rng, next + 1, fuel - 1) == Done("", next + 1);
    assert ["x"][1..] == [];
    assert " x" + "" == " x";
    assert BuildAll(g, ["x"], rng, next + 1, fuel - 1) == Done(" x", next + 1);
    assert ParseSubunits(Pick(g["S"], rng(next))) == ["x"];
  }

  /** ... and the sentence is the word, capitalised, with a full stop. */
  lemma GenerateSentenceExample(rng: nat -> nat, next: nat, fuel: nat)
    requires fuel >= 1
    ensures GenerateSentence(map["S" := ["x"]], "S", rng, next, fuel) == Done("X.", next + 1)
  {
    BuildRandomExample(rng, next, fuel);
    TrimExample();
    CapitalizeExample();
  }

  lemma TrimExample()
    ensures Trim(" x") == "x"
  {
    assert IsWhitespace(' ') && !IsWhitespace('x');
    assert TrimStart(" x") == "x";
    assert TrimEnd("x") == "x";
  }

  lemma CapitalizeExample()
    ensures Capitalize("x" + ".") == "X."
  {
    assert ToUpper('x') == 'X';
  }

  /**
   * A key whose alternative list is empty, as `rule_add_from_file` creates from a
   * rule with no right-hand side: `dfs` finds no safe alternative, so validation
   * calls it UNSAFE, yet `build_random` picks `""` from the empty list and expands
   * the key to the empty text after one draw.
   */
  lemma EmptyAlternativesMismatch(rng: nat -> nat, next: nat, fuel: nat)
    requires fuel >= 1
    ensures !Productive(map["K" := []], "K")
    ensures SafetyMap(map["K" := []]) == map["K" := Unsafe]
    ensures BuildRandom(map["K" := []], "K", rng, next, fuel) == Done("", next + 1)
  {
    var g: Rules := map["K" := []];
    assert ParseSubunits("") == [];
    SafetyMapOf(g, {});
  }
}
