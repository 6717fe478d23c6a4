# story-generator grammar engine in Dafny

This project models the grammar engine of the `story-generator` random-sentence generator.
A grammar maps each non-terminal name to an ordered list of right-hand-side alternatives.
Every alternative is a whitespace-separated list of tokens. A token is a non-terminal exactly
when it is a key of the map; any other token is a terminal. The engine has four parts:

- **Rule store** (`RuleStore`, `Text`). `rule_add` splits a line on `|`, trims each piece and
  appends the pieces. `rule_add_from_file` appends a parsed rule's alternatives.
  `rule_delete` removes a key. `parse_subunits` and `parse_selected_choice` split an
  alternative into tokens.
- **Safety validator** (`Derivation`, `Validation`). `dfs` is a four-colour depth-first
  search over the colours UNVISITED, VISITING, UNSAFE and SAFE. `validate` runs it from
  every key.
  - The specification is `Derivation.Productive`: the token has a derivation tree of finite
    height that ends in terminals.
  - `Validation.Dfs` is proved sound. When it answers true, the token is productive.
  - It is also proved complete relative to the current path. When some derivation avoids
    the tokens now marked VISITING, it answers true.
  - It terminates because the number of status keys not currently VISITING decreases.
  - `validate` therefore leaves SAFE on exactly the productive keys and UNSAFE on the others.
- **Reachability** (`Validation.FindReachable`). A depth-first walk from the start
  non-terminal marks every visited key SAFE. It is proved to mark exactly the keys
  reachable through the tokens of alternatives.
- **Generator** (`Generator`). `build_random` expands a key recursively, then
  `generate_sentence` trims, appends `.` and capitalises. The random choice is an oracle
  `rng: nat -> nat` read at a draw counter. The unguarded recursion gets a fuel bound.
  `Generator.BuildRandom` models `build_random`, and `Generator.BuildAll` its loop over the
  tokens of the chosen alternative. `Generator.Sentences` is the value `generate_sentences`
  returns. The generator is linked to the validator: in a grammar where every key has an
  alternative, an expansion that finishes is a derivation, so an unproductive key never
  finishes.

Both copies of the engine are modelled.

- `src/grammar.rs` keeps the validation state in a separate `Validator`. It becomes the
  classes `Grammar.Grammar` and `Grammar.Validator`.
- `src/grammar/grammar.rs` keeps that state on the grammar itself. It becomes
  `NestedGrammar.Grammar`.
- The free functions `dfs`, `find_reachable`, `parse_subunits` and `get_unsafe_keys` are
  identical in both files. They are modelled once, in `Validation` and `RuleStore`.
  `Validation.UnsafeKeys` is the UNSAFE filter of `get_unsafe_keys`, and
  `Validation.NotSafeKeys` is the non-SAFE filter of `get_unreachable_nonterminals`.

The small records `World`, `Actor` and `Location` (`src/components/`) are modelled as a
class, a class and a datatype. `Actor.Actor.HasMember` is `has_member`: by definition it
holds exactly when the id is a key of `members`.

Rust's `HashMap` becomes a Dafny `map`. The `&mut HashMap` status parameter of `dfs` and
`find_reachable` is exclusively borrowed, so it becomes a map passed in and returned.
The iteration order of a `HashMap` is unspecified. The validate loop therefore picks its
next key with `:|`, which proves it for every order, and the lists built from map
iteration become sets.

## Model

| member | source | states |
|---|---|---|
| Int32.Iterations | src/grammar.rs:67 | the loop runs once per integer of the range `0..count` (`Int32.Range`), so at most 2^31 - 1 times |
| Int32.RangeMembers | src/grammar.rs:67 | the range `0..n` holds exactly the integers x with 0 <= x < n |
| Int32.RangeSize | src/grammar.rs:67 | the range `0..n` holds `n` integers, and none when `n` is not positive, so `generate_sentences` runs max(count, 0) times |
| Text.Trim | src/grammar.rs:30 | the trimmed string occurs in the input as a run of consecutive characters (`Text.Occurs`), is no longer than it, and does not start or end with whitespace |
| Text.TrimContent | src/grammar.rs:30 | trimming keeps every non-whitespace character, in order |
| Text.TrimWord | src/grammar.rs:290 | trimming a whitespace-free token returns it unchanged, so the `trim` in `parse_subunits` has no effect |
| Text.Split | src/grammar.rs:26-28 | splitting on `\|` gives one more piece than there are separators, and no piece contains one |
| Text.JoinSplit | src/grammar.rs:26-28 | joining the pieces with the separator gives back the input |
| Text.SplitWhitespace | src/grammar.rs:287-293 | every token of `split_whitespace` is non-empty and free of whitespace |
| Text.SplitWhitespaceContent | src/grammar.rs:287-293 | concatenating the tokens gives exactly the non-whitespace characters of the input, in order |
| Text.SplitWhitespaceSpaced | src/grammar.rs:87-99 | re-splitting words joined with a leading space each gives back those words |
| Text.SplitWhitespaceWord | src/grammar.rs:287-293 | a single non-empty word tokenises to itself |
| Text.SplitWhitespaceSeparated | src/grammar.rs:287-293 | a whitespace character always ends a token: the tokens of `a`, whitespace, `b` are those of `a` followed by those of `b`; with the single-word case this makes the tokens the maximal runs of non-whitespace |
| Text.ToUpper | src/grammar.rs:82 | a lower-case ASCII letter becomes the upper-case letter at the same place in the alphabet, any other character is kept, so the result is never a lower-case letter |
| Text.Capitalize | src/grammar.rs:79-83 | the length is kept, only the first character may change, and a non-empty result never starts with a lower-case ASCII letter |
| Text.CapitalizeIdempotent | src/grammar.rs:79-83 | capitalising twice is capitalising once |
| RuleStore.ParseSubunits | src/grammar.rs:287-293 | tokenising an alternative equals `split_whitespace`: non-empty, whitespace-free tokens in source order |
| RuleStore.ParseAlternatives | src/grammar.rs:26-31 | gives one piece per `\|`-separated segment (separators + 1), none contains `\|`; each piece occurs in its segment, neither starts nor ends with whitespace, and keeps all of the segment's non-whitespace characters, which makes it exactly the trimmed segment |
| RuleStore.AddAlternatives | src/grammar.rs:34-37 | the key is created if absent, its old alternatives stay as a prefix followed exactly by the new ones, and every other key is unchanged |
| RuleStore.PushAll | src/grammar.rs:35-37 | pushing the parsed pieces one by one gives the old list followed by all of them in order |
| Derivation.DerivesMono | src/grammar.rs:210-249 | a derivation within a height bound stays one under any larger bound |
| Derivation.DerivesAvoidLess | src/grammar.rs:210-249 | a derivation that avoids a set of tokens also avoids every subset of it |
| Derivation.DerivesSplit | src/grammar.rs:219 | a derivation either avoids a further token or that token itself derives, which is why a VISITING cut-off loses nothing |
| Derivation.AvoidingAlternative | src/grammar.rs:223-235 | a key that derives has one alternative whose tokens all derive without passing through the key again |
| Derivation.ReachableStep | src/grammar.rs:263-270 | a path extends through any token of any alternative of its last key |
| Derivation.DerivesExtend | src/grammar.rs:48-51 | appending alternatives to an existing key keeps every derivation |
| Derivation.ProductiveExtend | src/grammar.rs:48-51 | appending alternatives to an existing key never makes a productive token unproductive |
| Validation.EvolvesTransitive | src/grammar.rs:210-249 | the guarantees `dfs` gives about the status map compose over successive calls: keys kept, SAFE never downgraded, UNSAFE and VISITING untouched |
| Validation.SafetyMap | src/grammar.rs:147-156 | the map after validation has exactly the rule keys, each SAFE or UNSAFE |
| Validation.Dfs | src/grammar.rs:210-249 | keeps the key set, never downgrades SAFE and leaves a node entered UNVISITED as SAFE or UNVISITED; true for a token with no status entry, false for a VISITING one; true only for productive tokens, and true for every token with a derivation avoiding the VISITING nodes |
| Validation.Visit | src/grammar.rs:220-246 | a node entered UNVISITED leaves SAFE exactly when the search found a derivation, and UNVISITED otherwise |
| Validation.AnyAlternativeSafe | src/grammar.rs:222-236 | the node is safe when some alternative has all its tokens safe; that implies productive, and an alternative that derives avoiding the path makes it safe |
| Validation.OptionIsSafe | src/grammar.rs:225-230 | an alternative is valid when every token's `dfs` is true; valid implies all tokens derive, and all tokens deriving while avoiding the path implies valid |
| Validation.AlternativeDerives | src/grammar.rs:231-238 | a key with an alternative whose tokens all derive is productive |
| Validation.SafeSoundUpdate | src/grammar.rs:237-244 | writing SAFE only for a productive key keeps every SAFE entry productive |
| Validation.MarkVisiting | src/grammar.rs:221 | marking a node VISITING adds it to the path and shrinks the termination measure |
| Validation.Unmark | src/grammar.rs:237-244 | resetting the node to SAFE or UNVISITED after the search keeps the guarantees about the caller's map |
| Validation.RaiseHeight | src/grammar.rs:226-230 | derivations of several tokens fit under one common height bound |
| Validation.ResetValidation | src/grammar.rs:168-174 | the reset map has exactly the rule keys, all UNVISITED |
| Validation.SafetyPass | src/grammar.rs:149-155 | the top-level loop, taking keys in any order, leaves exactly the productivity map: SAFE for productive keys and UNSAFE for the others |
| Validation.UnsafeKeysOfSafetyMap | src/grammar.rs:299-306 | the UNSAFE keys after validation are exactly the unproductive rule keys |
| Validation.ReachMap | src/grammar.rs:185-186 | the reachability map has exactly the rule keys, each SAFE or UNVISITED, and the start key is SAFE |
| Validation.FindReachable | src/grammar.rs:254-277 | only turns UNVISITED into SAFE; an UNVISITED or SAFE key ends SAFE; every SAFE key is reachable from the start, and every successor of a SAFE key is marked |
| Validation.MarkAndWalk | src/grammar.rs:261-273 | marks the node SAFE, then walks every alternative, with the same guarantees |
| Validation.WalkOption | src/grammar.rs:266-270 | after walking an alternative, none of its tokens that are keys is still UNVISITED |
| Validation.UnvisitedShrink | src/grammar.rs:254-277 | marking never adds UNVISITED keys |
| Validation.MarkShrinks | src/grammar.rs:262 | marking an UNVISITED node strictly shrinks the UNVISITED set, which is why `find_reachable` terminates |
| Validation.ReachableSuccessor | src/grammar.rs:265-270 | every token of an alternative of a reachable key is reachable |
| Validation.ReachabilityMapOfWalk | src/grammar.rs:185-186 | a finished walk from the start equals the reachability map |
| Validation.ClosedPath | src/grammar.rs:254-277 | in a finished walk, everything reachable from a SAFE key is SAFE |
| Validation.NotSafeKeysOfReachMap | src/grammar.rs:187-192 | the keys not marked SAFE are exactly the rule keys unreachable from the start |
| Validation.UnknownStartReachesNothing | src/grammar/grammar.rs:123-133 | when the start is not a key, every key is reported unreachable |
| Generator.Pick | src/utils.rs:18-25 | the random pick is `""` for an empty list and an element of the list otherwise |
| Generator.BuildAllAppend | src/grammar.rs:91-95 | expanding a concatenation of tokens is expanding the first part, then the second from where the draws left off |
| Generator.BuildRandomFuel | src/grammar.rs:87-99 | a finished expansion does not depend on the fuel bound |
| Generator.BuildAllFuel | src/grammar.rs:91-95 | a finished expansion of a token list does not depend on the fuel bound |
| Generator.BuildRandomDerives | src/grammar.rs:87-99 | in a grammar where every key has an alternative, a finished expansion of a key is a derivation of it |
| Generator.BuildAllDerives | src/grammar.rs:91-95 | in such a grammar, a finished expansion of a token list derives every token |
| Generator.UnsafeNeverFinishes | src/grammar.rs:87-99 | in such a grammar, an unproductive key is never expanded to a string, whatever the choices and the fuel |
| Generator.BuildAllYield | src/grammar.rs:87-99 | a finished expansion is `" "` + terminal per terminal, in order; the terminals are non-keys, non-empty and free of whitespace, and re-tokenising the text gives them back |
| Generator.BuildRandomYield | src/grammar.rs:87-99 | a finished expansion of one token is its terminals, each after one space; none of them is a key, and each is non-empty and free of whitespace |
| Generator.SpacedAppend | src/grammar.rs:92-94 | the space-prefixed text of a concatenation is the concatenation of the texts |
| Generator.FormatSentence | src/grammar.rs:76-83 | the formatted sentence is non-empty, ends in `.`, is one character longer than the trimmed text, and has the first character upper-cased with the rest unchanged |
| Generator.EndSentence | src/grammar.rs:77-83 | appending `.` and capitalising gives a non-empty sentence ending in `.`, one character longer, with only the first character changed |
| Generator.GenerateSentence | src/grammar.rs:74-84 | a generated sentence is non-empty and ends in `.`; one is generated exactly when the expansion finishes |
| Generator.PrependNil | src/grammar.rs:66 | the empty list of sentences prepends nothing |
| Generator.PrependPrepend | src/grammar.rs:67-69 | prepending two lists in turn prepends their concatenation |
| Generator.SentencesAdvance | src/grammar.rs:67-69 | one loop turn that generates a sentence appends it to the collected ones and leaves one fewer to go, keeping the result of the whole run |
| Generator.SentencesStop | src/grammar.rs:67-69 | a generation that runs out of fuel makes the whole run run out of fuel |
| Generator.SentencesShape | src/grammar.rs:65-71 | a finished run of `count` generations gives exactly `count` sentences, each non-empty and ending in `.` |
| Generator.SentencesUnfold | src/grammar.rs:67-69 | a finished run of `count` > 0 generations is one sentence followed by a finished run of `count` - 1 from the next draw |
| Generator.PrependSentences | src/grammar.rs:67-69 | one more sentence in front keeps every element a sentence and adds one to the length |
| Grammar.Validator.constructor | src/grammar.rs:122-126 | a new validator has an empty validation map |
| Grammar.Validator.Validate | src/grammar.rs:147-166 | the validation map becomes SAFE for productive keys and UNSAFE for the others; `Ok` exactly when every key is productive; the error holds exactly the unproductive keys |
| Grammar.Validator.GetUnreachableNonterminals | src/grammar.rs:180-195 | the validation map becomes the reachability map from the key; the result is exactly the keys not reachable from it |
| Grammar.Grammar.constructor | src/grammar.rs:15-22 | a new grammar has no rules, no validation, an empty start and a fresh validator |
| Grammar.Grammar.RuleAdd | src/grammar.rs:25-38 | the key's alternatives become the old ones followed by the trimmed `\|`-pieces of the value; the other keys and fields are unchanged |
| Grammar.Grammar.ChangeStartNonterminal | src/grammar.rs:40-42 | only the start non-terminal changes |
| Grammar.Grammar.RuleAddFromFile | src/grammar.rs:48-51 | the key's alternatives become the old ones followed by the rule's; nothing is removed; other keys and fields are unchanged |
| Grammar.Grammar.RuleDelete | src/grammar.rs:56-62 | the key is removed and nothing else changes; the result tells whether the key was present, and an absent key leaves the rules as they were |
| Grammar.Grammar.GenerateSentences | src/grammar.rs:65-71 | the loop collects max(count, 0) sentences in order, as specified by `Generator.Sentences` |
| Grammar.Grammar.GetUnreachableNonterminals | src/grammar.rs:101-105 | returns exactly the keys unreachable from the start non-terminal and leaves the reachability map in the validator |
| Grammar.Grammar.Validate | src/grammar.rs:109-111 | `Ok` exactly when every key is productive; the error holds exactly the unproductive keys; the validator's map is the productivity map |
| NestedGrammar.Grammar.constructor | src/grammar/grammar.rs:11-17 | a new grammar has no rules, no validation and an empty start |
| NestedGrammar.Grammar.RuleAdd | src/grammar/grammar.rs:18-30 | appends the trimmed `\|`-pieces after the key's existing alternatives and never replaces them |
| NestedGrammar.Grammar.ChangeStartNonterminal | src/grammar/grammar.rs:32-34 | only the start non-terminal changes |
| NestedGrammar.Grammar.RuleAddFromFile | src/grammar/grammar.rs:36-39 | appends the rule's alternatives after the key's existing ones |
| NestedGrammar.Grammar.RuleDelete | src/grammar/grammar.rs:40-46 | removes only the given key; an absent key leaves the rules unchanged |
| NestedGrammar.Grammar.GenerateSentences | src/grammar/grammar.rs:48-54 | the loop collects max(count, 0) sentences in order |
| NestedGrammar.Grammar.ParseSelectedChoice | src/grammar/grammar.rs:86-93 | the token loop returns exactly what `parse_subunits` returns: non-empty, whitespace-free tokens |
| NestedGrammar.Grammar.ResetValidation | src/grammar/grammar.rs:95-100 | the validation map becomes every rule key marked UNVISITED; rules and start are unchanged |
| NestedGrammar.Grammar.Validate | src/grammar/grammar.rs:103-121 | the validation map has exactly the rule keys, SAFE for productive ones and UNSAFE otherwise; `Ok` exactly when no key is UNSAFE; the error holds the unproductive keys |
| NestedGrammar.Grammar.GetUnreachableNonterminals | src/grammar/grammar.rs:123-133 | returns exactly the keys unreachable from the start non-terminal; the walk runs on a copy, so the validation map is left all UNVISITED |
| GrammarExamples.ParseSubunitsExample | src/grammar.rs:356-360 | `"<id> <noun>"` tokenises to `["<id>", "<noun>"]` |
| GrammarExamples.TwoCycleNeverDerives | src/grammar.rs:143-145 | two keys that only rewrite to each other never derive |
| GrammarExamples.SingleTokenStep | src/grammar.rs:223-238 | a key with a one-token alternative derives one level above that token |
| GrammarExamples.SafetyMapOf | src/grammar.rs:147-156 | the productivity map given by listing the productive keys |
| GrammarExamples.CycleProductivity | src/grammar.rs:313-332 | in `<sentence> = <vp> \| np`, `<vp> = noun`, `noun = <vp>` only `<sentence>` is productive |
| GrammarExamples.SentenceExit | src/grammar.rs:317 | `<sentence>` derives through the terminal `np` |
| GrammarExamples.CycleStuck | src/grammar.rs:318-319 | `<vp>` and `noun` never derive |
| GrammarExamples.ValidationExample1 | src/grammar.rs:325-331 | validation gives `<sentence>` SAFE and `<vp>`, `noun` UNSAFE |
| GrammarExamples.TestValidation1 | src/grammar.rs:313-332 | adding the three rules and validating returns the error `{<vp>, noun}` and the expected validation map |
| GrammarExamples.CycleUnsafeKeys | src/grammar.rs:329-330 | the unproductive keys of the cycle grammar are exactly `<vp>` and `noun` |
| GrammarExamples.SelfLoopProductivity | src/grammar.rs:333-343 | in `1 = 1 \| 2`, `2 = 3` both keys are productive |
| GrammarExamples.MutualLoopProductivity | src/grammar.rs:344-354 | in `1 = 1 \| 2`, `2 = 1 \| 3` both keys are productive |
| GrammarExamples.ValidationExample2 | src/grammar.rs:333-343 | validation marks `1` and `2` SAFE |
| GrammarExamples.ValidationExample3 | src/grammar/grammar.rs:280-291 | validation marks the mutually recursive `1` and `2` SAFE |
| GrammarExamples.ReachMapOf | src/grammar.rs:180-195 | the reachability map given by listing the reachable keys |
| GrammarExamples.Reached1 | src/grammar.rs:366-367 | `a` and `b` are reachable from `a` in the first test graph |
| GrammarExamples.ReachExample1 | src/grammar.rs:362-376 | the walk from `a` marks `a` and `b` SAFE |
| GrammarExamples.Unreached2 | src/grammar.rs:381-382 | `b` is not reachable from `a` in the second test graph |
| GrammarExamples.ReachExample2 | src/grammar.rs:377-391 | the walk from `a` marks `a` SAFE and leaves `b` UNVISITED |
| GrammarExamples.TestFindReachable2 | src/grammar.rs:377-391 | running the walk on the second test graph gives `a` SAFE and `b` UNVISITED |
| GrammarExamples.BuildRandomExample | src/grammar.rs:87-99 | the key `S = x` expands to `" x"` with one draw |
| GrammarExamples.GenerateSentenceExample | src/grammar.rs:74-84 | `S = x` generates the sentence `"X."` |
| GrammarExamples.TrimExample | src/grammar.rs:76 | `" x"` trims to `"x"` |
| GrammarExamples.EmptyAlternativesMismatch | src/grammar.rs:48-51 | a key with an empty alternative list is unproductive and validated UNSAFE, yet `build_random` expands it to `""` after one draw |
| GrammarExamples.CapitalizeExample | src/grammar.rs:79-83 | `"x."` capitalises to `"X."` |
| World.World.Build | src/components/world.rs:20-27 | a new world keeps the given name and id and has no locations |
| World.World.AddLocation | src/components/world.rs:13-17 | the location is appended at the end, the map binds its id to it, replacing any earlier entry, and the name and id are unchanged |
| World.AddTwoWithSameId | src/components/world.rs:15-16 | adding two locations with the same id grows the list by two and the map's key set by at most one |
| World.RebindGrowsByAtMostOne | src/components/world.rs:16 | inserting into a map adds at most one key, and none when the key is already bound |
| Actor.Actor.Default | src/components/actor.rs:31-44 | the default actor has empty collections, zero numeric fields and the default location |
| Actor.Actor.AddLocation | src/components/actor.rs:18-22 | the location is appended, the map binds its id to it, and no other field changes |
| Actor.Actor.SetEntryTime | src/components/actor.rs:23-25 | only the entry time changes |

## Left out

- Random choice: `rand::thread_rng` (src/utils.rs, src/random.rs) becomes the oracle parameter `rng` with a draw counter. The model proves facts for every oracle; it does not model the distribution.
- Unbounded recursion: `build_random` has no cycle guard and does not terminate on a grammar whose expansion can loop. `Generator.BuildRandom` takes a fuel bound and returns `OutOfFuel` when it is exhausted. `Generator.BuildRandomFuel` shows that a finished expansion does not depend on the bound.
- Generator.UnsafeNeverFinishes: requires every key to have at least one alternative (`GrammarExamples.EmptyAlternativesMismatch` shows the case it excludes). `rule_add_from_file` with an empty right-hand side creates a key with no alternative. `dfs` marks such a key UNSAFE, yet `build_random` expands it to `""` because the random pick of an empty list is `""`. Without the precondition the statement is false.
- HashMap iteration order: it decides the order of the validate loop and of the returned lists. The loop is proved for any order, and the unsafe and unreachable lists are sets. The error string `"unsafe non-terminals: ..."` is the set of those keys, not its text.
- `println!` in `rule_delete`: the printed message is not modelled. Whether the key was found is the returned boolean.
- `to_uppercase`: Unicode case mapping is modelled as ASCII `a`–`z` to `A`–`Z` only, and one character maps to one character. The `None` branch of `generate_sentence` is unreachable, because `.` was just appended.
- Status encoding: the `i32` constants 0–3 become the datatype `Status`. The catch-all arm `_ => false` of `dfs` is unreachable and has no counterpart.
- `Actor.members` holds owned actors in Rust. The model holds references to `Actor` objects; only the key set is used (`has_member`).
- `build_location` and the `Location` struct are the datatype constructor `Location.Location`.
- `Rule::new`, `Config`, `run`, optional-token expansion and paragraph chunking are not part of this model. `Rule` is taken as already parsed into a left-hand side and a list of alternatives.
- src/main.rs (command-line handling and process exit), src/grammar/sentence.rs (fixed strings) and src/lib.rs (module declarations) contain no engine logic and are not modelled.
- The `test_validation_2` and `test_validation_3` tests build their grammars with `rule_add`. The model states their outcome for the resulting rule maps, not for the `rule_add` call sequence.
- Integer width: `i32` fields are a bounded `newtype`. No arithmetic is performed on them, so wrap-around does not arise.
