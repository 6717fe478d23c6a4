/**
 * The rule store: a map from a non-terminal name to its ordered list of
 * right-hand-side alternatives, each kept as a whitespace-separated string and
 * re-tokenised on demand. A token is a non-terminal exactly when it is a key of
 * the map; every other token is a terminal.
 */
module RuleStore {
  import opened Text

  type Rules = map<string, seq<string>>

  /** A parsed rule line: its left-hand side and its list of alternatives. */
  datatype Rule = Rule(leftHand: string, rightHand: seq<string>)

  /**
   * `parse_subunits`: the tokens of one alternative, each trimmed. Trimming
   * changes nothing, so the tokens are exactly the whitespace-separated words.
   */
  function ParseSubunits(option: string): (r: seq<string>)
    ensures r == SplitWhitespace(option)
  {
    var words := SplitWhitespace(option);
    var r := seq(|words|, i requires 0 <= i < |words| => Trim(words[i]));
    forall i | 0 <= i < |words| ensures r[i] == words[i] {
      TrimWord(words[i]);
    }
    r
  }

  /**
   * The parsing step of `rule_add`: `value` split on `|`, each piece trimmed.
   * There is one piece more than there are bars, no piece holds a bar or starts or
   * ends with whitespace, and each piece is a run of its slice that keeps all the
   * slice's visible characters: exactly the slice with its outer whitespace removed.
   */
  function ParseAlternatives(value: string): (r: seq<string>)
    ensures |r| == Count(value, '|') + 1
    ensures forall i :: 0 <= i < |r| ==> '|' !in r[i]
    ensures forall i :: 0 <= i < |r| && r[i] != [] ==>
              !IsWhitespace(r[i][0]) && !IsWhitespace(r[i][|r[i]| - 1])
    ensures forall i :: 0 <= i < |r| ==>
              NonWhitespace(r[i]) == NonWhitespace(Split(value, '|')[i])
    ensures forall i :: 0 <= i < |r| ==> Occurs(r[i], Split(value, '|')[i])
  {
    var pieces := Split(value, '|');
    var r := seq(|pieces|, i requires 0 <= i < |pieces| => Trim(pieces[i]));
    forall i | 0 <= i < |r|
      ensures NonWhitespace(r[i]) == NonWhitespace(pieces[i])
    {
      TrimContent(pieces[i]);
    }
    r
  }

  /** The alternatives stored under `key`; none when it is not a key (`entry().or_insert(vec![])`). */
  function Alternatives(rules: Rules, key: string): seq<string>
  {
    if key in rules then rules[key] else []
  }

  /**
   * The store after appending `alts` to the alternatives of `key`, creating the
   * entry when it is missing (`entry(key).or_insert(vec![])` then `push`/`extend`):
   * `key` becomes a key, its old alternatives come first, and no other entry changes.
   */
  function AddAlternatives(rules: Rules, key: string, alts: seq<string>): (r: Rules)
    ensures r.Keys == rules.Keys + {key}
    ensures |r[key]| == |Alternatives(rules, key)| + |alts|
    ensures Alternatives(rules, key) <= r[key] && r[key][|Alternatives(rules, key)|..] == alts
    ensures forall k :: k in rules && k != key ==> r[k] == rules[k]
  {
    rules[key := Alternatives(rules, key) + alts]
  }

  /** The `for option in parsed { right_hand_side.push(option) }` loop of `rule_add`. */
  method PushAll(rightHandSide: seq<string>, parsed: seq<string>) returns (r: seq<string>)
    ensures r == rightHandSide + parsed
  {
    r := rightHandSide;
    for i := 0 to |parsed|
      invariant r == rightHandSide + parsed[..i]
    {
      assert parsed[..i + 1] == parsed[..i] + [parsed[i]];
      r := r + [parsed[i]];
    }
    assert parsed[..|parsed|] == parsed;
  }

  /** Every non-terminal has at least one alternative (what `rule_add` alone builds). */
  ghost predicate EveryKeyHasAlternative(rules: Rules)
  {
    forall k :: k in rules ==> rules[k] != []
  }
}
