/**
 * `src/grammar/grammar.rs`: the second copy of the grammar object, which keeps the
 * status map on the grammar itself instead of in a separate validator. Its static
 * passes, tokeniser and filters are the shared ones of modules Validation and
 * RuleStore; its own members are modelled here.
 */
module NestedGrammar {
  import opened Wrappers
  import opened Int32
  import opened Text
  import opened RuleStore
  import opened Derivation
  import Validation
  import opened Generator

  type StatusMap = Validation.StatusMap

  class Grammar {
    var rules: Rules
    var validation: StatusMap
    var startNonterminal: string

    constructor ()
      ensures rules == map[] && validation == map[] && startNonterminal == []
    {
      rules := map[];
      validation := map[];
      startNonterminal := [];
    }

    /** `rule_add`: append the `|`-separated alternatives of `value` to those of `key`. */
    method RuleAdd(key: string, value: string)
      modifies this
      ensures rules == AddAlternatives(old(rules), key, ParseAlternatives(value))
      ensures validation == old(validation) && startNonterminal == old(startNonterminal)
    {
      var parsed := ParseAlternatives(value);
      var rightHandSide := PushAll(Alternatives(rules, key), parsed);
      rules := rules[key := rightHandSide];
    }

    method ChangeStartNonterminal(newValue: string)
      modifies this
      ensures startNonterminal == newValue
      ensures rules == old(rules) && validation == old(validation)
    {
      startNonterminal := newValue;
    }

    /** `rule_add_from_file`: append the alternatives of a parsed rule to its left-hand side. */
    method RuleAddFromFile(rule: Rule)
      modifies this
      ensures rules == AddAlternatives(old(rules), rule.leftHand, rule.rightHand)
      ensures validation == old(validation) && startNonterminal == old(startNonterminal)
    {
      rules := AddAlternatives(rules, rule.leftHand, rule.rightHand);
    }

    /** `rule_delete`: remove the rule for `key`; the result tells which message is printed. */
    method RuleDelete(key: string) returns (found: bool)
      modifies this
      ensures found <==> key in old(rules)
      ensures rules == old(rules) - {key}
      ensures validation == old(validation) && startNonterminal == old(startNonterminal)
    {
      found := key in rules;
      rules := rules - {key};
    }

    /** `generate_sentences`: `count` sentences from `key`, none for a count that is not positive. */
    method GenerateSentences(key: string, count: i32, rng: nat -> nat, next: nat, fuel: nat)
      returns (r: Outcome<seq<string>>)
      ensures r == Sentences(rules, key, Iterations(count), rng, next, fuel)
    {
      var g := rules;
      var n := Iterations(count);
      var sentences := [];
      var cursor := next;
      PrependNil(Sentences(g, key, n, rng, next, fuel));
      for i := 0 to n
        invariant Sentences(g, key, n, rng, next, fuel)
                  == Prepend(sentences, Sentences(g, key, n - i, rng, cursor, fuel))
      {
        var first := GenerateSentence(g, key, rng, cursor, fuel);
        if first.OutOfFuel? {
          SentencesStop(g, key, n, rng, next, fuel, sentences, n - i, cursor);
          return OutOfFuel;
        }
        SentencesAdvance(g, key, n, rng, next, fuel, sentences, n - i, cursor);
        sentences := sentences + [first.value];
        cursor := first.next;
      }
      r := Done(sentences, cursor);
      assert sentences + [] == sentences;
    }

    /**
     * `parse_selected_choice`, the tokeniser this copy's `build_random` uses: the
     * whitespace-separated words of the option, each trimmed, pushed in order. It
     * yields the same tokens as `parse_subunits`.
     */
    method ParseSelectedChoice(option: string) returns (allOptions: seq<string>)
      ensures allOptions == ParseSubunits(option)
      ensures forall i :: 0 <= i < |allOptions| ==> allOptions[i] != [] && NoWhitespace(allOptions[i])
    {
      var options := SplitWhitespace(option);
      allOptions := [];
      for i := 0 to |options|
        invariant allOptions == options[..i]
      {
        var possible := options[i];
        TrimWord(possible);
        allOptions := allOptions + [Trim(possible)];
      }
    }

    /** `reset_validation`: the status map becomes every key of the rules, UNVISITED. */
    method ResetValidation()
      modifies this
      ensures validation == Validation.ResetValidation(rules)
      ensures rules == old(rules) && startNonterminal == old(startNonterminal)
    {
      validation := map[];
      var keys := rules.Keys;
      while keys != {}
        invariant rules == old(rules) && startNonterminal == old(startNonterminal)
        invariant keys <= rules.Keys
        invariant validation.Keys == rules.Keys - keys
        invariant forall k :: k in validation ==> validation[k] == Validation.Unvisited
        decreases keys
      {
        var key :| key in keys;
        validation := validation[key := Validation.Unvisited];
        keys := keys - {key};
      }
    }

    /**
     * `validate`: the safety pass on a copy of the reset map, which then replaces
     * the stored map: SAFE exactly for the productive keys. The result is an error
     * exactly when some key is unsafe, and then it names all of them.
     */
    method Validate() returns (r: Result<(), set<string>>)
      modifies this
      ensures validation == Validation.SafetyMap(rules)
      ensures r.Ok? <==> forall k :: k in rules ==> Productive(rules, k)
      ensures r.Err? ==> r.error == set k | k in rules && !Productive(rules, k)
      ensures rules == old(rules) && startNonterminal == old(startNonterminal)
    {
      ResetValidation();
      var t := validation;
      t := Validation.SafetyPass(rules, t);
      validation := t;
      var unsafeKeys := Validation.UnsafeKeys(validation);
      Validation.UnsafeKeysOfSafetyMap(rules);
      assert unsafeKeys == set k | k in rules && !Productive(rules, k);
      if |unsafeKeys| == 0 {
        forall k | k in rules ensures Productive(rules, k) {
          assert k !in unsafeKeys;
        }
        r := Ok(());
      } else {
        var k :| k in unsafeKeys;
        assert k in rules && !Productive(rules, k);
        r := Err(unsafeKeys);
      }
    }

    /**
     * `get_unreachable_nonterminals`: the walk from the start non-terminal runs on a
     * copy of the reset map, so the stored map stays all UNVISITED; the result is
     * the keys not reachable from the start.
     */
    method GetUnreachableNonterminals() returns (unreachable: set<string>)
      modifies this
      ensures validation == Validation.ResetValidation(rules)
      ensures unreachable == set k | k in rules && !Reachable(rules, startNonterminal, k)
      ensures rules == old(rules) && startNonterminal == old(startNonterminal)
    {
      ResetValidation();
      var visited := validation;
      assert ReachableIn(rules, startNonterminal, startNonterminal, 0);
      visited := Validation.FindReachable(startNonterminal, rules, visited, startNonterminal, {});
      Validation.ReachabilityMapOfWalk(rules, startNonterminal, visited);
      Validation.NotSafeKeysOfReachMap(rules, startNonterminal);
      unreachable := Validation.NotSafeKeys(visited);
    }
  }
}
