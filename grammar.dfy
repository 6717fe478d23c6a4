/**
 * `src/grammar.rs`: the grammar object the client works with, and the separate
 * validator object that owns the status map of the last static pass.
 *
 * The random source of the generator is a parameter: the draw oracle `rng`, the
 * index `next` of the first unused draw, and the expansion depth `fuel` (see
 * module Generator).
 */
module Grammar {
  import opened Wrappers
  import opened Int32
  import opened RuleStore
  import opened Derivation
  import opened Validation
  import opened Generator

  /** `Validator`: runs the static passes and keeps the status map of the last one. */
  class Validator {
    var validation: StatusMap

    constructor ()
      ensures validation == map[]
    {
      validation := map[];
    }

    /**
     * `validate`: the safety pass over every key, after which the stored map holds
     * SAFE exactly for the productive keys and UNSAFE for the others. The result is
     * an error exactly when some key is unsafe, and then it names all of them.
     */
    method Validate(rules: Rules) returns (r: Result<(), set<string>>)
      modifies this
      ensures validation == SafetyMap(rules)
      ensures r.Ok? <==> forall k :: k in rules ==> Productive(rules, k)
      ensures r.Err? ==> r.error == set k | k in rules && !Productive(rules, k)
    {
      var validationMap := ResetValidation(rules);
      validationMap := SafetyPass(rules, validationMap);
      validation := validationMap;
      var unsafeKeys := UnsafeKeys(validation);
      UnsafeKeysOfSafetyMap(rules);
      assert unsafeKeys == set k | k in rules && !Productive(rules, k);
      if |unsafeKeys| == 0 {
        forall k | k in rules ensures Productive(rules, k) {
          assert k !in unsafeKeys;
        }
        r := Ok(());
      } else {
        var k :| k in unsafeKeys;
        assert k in rules && !Productive(rules, k);
        r := Err(unsafeKeys);
      }
    }

    /**
     * `get_unreachable_nonterminals`: walk from `key` over a fresh all-UNVISITED
     * map; the stored map then holds SAFE exactly for the keys reachable from `key`,
     * and the result is the keys that are not.
     */
    method GetUnreachableNonterminals(rules: Rules, key: string) returns (unreachable: set<string>)
      modifies this
      ensures validation == ReachMap(rules, key)
      ensures unreachable == set k | k in rules && !Reachable(rules, key, k)
    {
      validation := ResetValidation(rules);
      assert ReachableIn(rules, key, key, 0);
      validation := FindReachable(key, rules, validation, key, {});
      ReachabilityMapOfWalk(rules, key, validation);
      NotSafeKeysOfReachMap(rules, key);
      unreachable := NotSafeKeys(validation);
    }
  }

  /** `Grammar`: the rules, the start non-terminal and the validator. */
  class Grammar {
    var rules: Rules
    var validation: StatusMap
    var startNonterminal: string
    var validator: Validator

    constructor ()
      ensures rules == map[] && validation == map[] && startNonterminal == []
      ensures fresh(validator) && validator.validation == map[]
    {
      rules := map[];
      validation := map[];
      startNonterminal := [];
      validator := new Validator();
    }

    /**
     * `rule_add`: split `value` into its alternatives and append them, one at a
     * time, to the alternatives of `key`, creating the entry if it is missing.
     */
    method RuleAdd(key: string, value: string)
      modifies this
      ensures rules == AddAlternatives(old(rules), key, ParseAlternatives(value))
      ensures validation == old(validation) && startNonterminal == old(startNonterminal)
      ensures validator == old(validator)
    {
      var parsed := ParseAlternatives(value);
      var rightHandSide := PushAll(Alternatives(rules, key), parsed);
      rules := rules[key := rightHandSide];
    }

    method ChangeStartNonterminal(newValue: string)
      modifies this
      ensures startNonterminal == newValue
      ensures rules == old(rules) && validation == old(validation) && validator == old(validator)
    {
      startNonterminal := newValue;
    }

    /** `rule_add_from_file`: append the alternatives of a parsed rule to its left-hand side. */
    method RuleAddFromFile(rule: Rule)
      modifies this
      ensures rules == AddAlternatives(old(rules), rule.leftHand, rule.rightHand)
      ensures validation == old(validation) && startNonterminal == old(startNonterminal)
      ensures validator == old(validator)
    {
      rules := AddAlternatives(rules, rule.leftHand, rule.rightHand);
    }

    /**
     * `rule_delete`: remove the rule for `key`. The result says which of the two
     * messages is printed: the removal, or that no such rule exists.
     */
    method RuleDelete(key: string) returns (found: bool)
      modifies this
      ensures found <==> key in old(rules)
      ensures rules == old(rules) - {key}
      ensures validation == old(validation) && startNonterminal == old(startNonterminal)
      ensures validator == old(validator)
    {
      found := key in rules;
      rules := rules - {key};
    }

    /**
     * `generate_sentences`: `count` sentences from `key`, one after another, none
     * for a count that is not positive.
     */
    method GenerateSentences(key: string, count: i32, rng: nat -> nat, next: nat, fuel: nat)
      returns (r: Outcome<seq<string>>)
      ensures r == Sentences(rules, key, Iterations(count), rng, next, fuel)
    {
      var g := rules;
      var n := Iterations(count);
      var sentences := [];
      var cursor := next;
      PrependNil(Sentences(g, key, n, rng, next, fuel));
      for i := 0 to n
        invariant Sentences(g, key, n, rng, next, fuel)
                  == Prepend(sentences, Sentences(g, key, n - i, rng, cursor, fuel))
      {
        var first := GenerateSentence(g, key, rng, cursor, fuel);
        if first.OutOfFuel? {
          SentencesStop(g, key, n, rng, next, fuel, sentences, n - i, cursor);
          return OutOfFuel;
        }
        SentencesAdvance(g, key, n, rng, next, fuel, sentences, n - i, cursor);
        sentences := sentences + [first.value];
        cursor := first.next;
      }
      r := Done(sentences, cursor);
      assert sentences + [] == sentences;
    }

    /** `get_unreachable_nonterminals`: the validator's walk from the start non-terminal. */
    method GetUnreachableNonterminals() returns (unreachable: set<string>)
      modifies validator
      ensures validator.validation == ReachMap(rules, startNonterminal)
      ensures unreachable == set k | k in rules && !Reachable(rules, startNonterminal, k)
    {
      unreachable := validator.GetUnreachableNonterminals(rules, startNonterminal);
    }

    /** `validate`: the validator's safety pass over the rules. */
    method Validate() returns (r: Result<(), set<string>>)
      modifies validator
      ensures validator.validation == SafetyMap(rules)
      ensures r.Ok? <==> forall k :: k in rules ==> Productive(rules, k)
      ensures r.Err? ==> r.error == set k | k in rules && !Productive(rules, k)
    {
      r := validator.Validate(rules);
    }
  }
}
