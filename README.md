# mcts-talk in Dafny

mcts-talk drives a conversation between a player character and some
non-player characters. An author gives each non-player character talking
points. Each point has an order and a set of target texts, and each target
text has an effect on the speaker's state. The model covers three parts of
the program.

- **character.py.** Characters carry a state: an attitude and a relation
  towards other characters, both enumerations whose members are looked up
  by name or by value. A character rewrites a text in its own style with
  `translate` and asks for a new state with `adjust_state`. It merges a
  state delta into its own state with `update_state`.
- **mcts.py.** The planner builds a Monte Carlo search tree over sampled
  continuations of the dialogue. It selects by UCB, expands with oracle
  samples and checks nodes against the talking-point targets. It scores
  nodes by rollouts whose reward is discounted by `0.9` per round, and it
  backpropagates visits and rewards. It returns either the one talking
  point matched right below the root, or the root's children ranked by
  reward.
- **dialogue.py.** The dialogue keeps the turn log with a state snapshot
  per turn, the talking points still to be reached, and the cached player
  options. It takes player turns (`add_pc_turn`, `get_pc_options`) and
  non-player turns (`take_npc_turn`), and it renders the dialogue prompt
  with each character's state note.

The language model is an `Oracle`: a stream of answers `nat -> string` and
a count of the calls made so far. Each call to `get_response` consumes the
next answer. Every method that asks the oracle states how far it advances
the count, and states its result and its new state as a function of the
answers from the old count on.

Characters are told apart by name, as `Character.__eq__` and `__hash__`
do. A Python dict with insertion order is an association list
(`OrderedMap`). The search tree is an arena: a sequence of nodes in which
a parent comes before its children and the parent link is an index. Float
rewards are `real`.

Modules, one per file: `Wrappers` (Option, Result, Outcome), `Text` (the
string built-ins used), `OrderedMap`, `OracleStream`, `Characters`,
`Ranking` (the stable descending sort of `sorted(..., reverse=True)`),
`Tree` (the arena and backpropagation), `Planner` and `Dialogues`.

Two behaviours of the code are modelled as written.

1. **`adjust_state` never changes a state.** It lower-cases the token from
   the oracle's answer before passing it to `set_attitude`, but member
   names are upper-case, so `get_enum` never finds a match. The `except`
   swallows the `IndexError`, and the first answer is always replaced by
   "New Attitude: none". The second answer, the relationship, is also
   handed to `set_attitude` and so never reaches the relations.
   `LoweredTokenNeverResolves` proves the first part, and the contract of
   `Character.AdjustState` states the outcome.
2. **Prompts fail once no talking point is left.** `min([])` raises in
   `get_next_talking_points`, so every prompt built from it fails. That
   covers `translate`, `adjust_state` and the `MCTS` constructor. The
   model returns `Err(NoTalkingPoints)` at each of those points, and it
   keeps the state changes the code makes before the failure: the turn
   `add_pc_turn` has already appended, and the point `take_npc_turn` has
   already consumed.

## Model

| member | source | states |
|---|---|---|
| Characters.FirstMatch | character.py:13 | the first member whose name or value equals the key; none exactly when no member matches |
| Characters.Resolve | character.py:12-13 | a member is returned as it is; otherwise the first matching member; `Err(InvalidEnumValue)` (the `IndexError`) exactly when nothing matches |
| Characters.ResolveRoundTrip | character.py:12-13 | when names and values are injective, every member's name and every member's value resolve back to that member |
| Characters.AttitudesInjective | character.py:16-27 | the eleven attitudes have pairwise distinct names and values |
| Characters.RelationsInjective | character.py:30-36 | the six relations have pairwise distinct names and values |
| Characters.AttitudeRoundTrip | character.py:16-27 | every attitude is found again from its name and from its value |
| Characters.RelationRoundTrip | character.py:30-36 | every relation is found again from its name and from its value |
| Characters.NoUpperNeverResolves | character.py:13 | a string without an upper-case letter resolves to no attitude and no relation |
| Characters.LoweredTokenNeverResolves | character.py:135-141 | the lower-cased, stripped token `adjust_state` extracts never selects an attitude |
| Characters.ResolveRelations | character.py:42-45 | the resolved relation dictionary keeps only keys of the input and keeps keys distinct |
| Characters.ResolveRelationsGet | character.py:42-45 | a None relation is dropped, a resolvable one is stored resolved, and an unresolvable one makes the construction fail |
| Characters.ResolveNamed | character.py:42-45 | a relation dictionary written with member names resolves back to the same dictionary, in the same order |
| Characters.MakeStateRoundTrip | character.py:39-45 | `MakeState` (the `CharacterState` constructor) given the names of a state's attitude and relations rebuilds exactly that state |
| Characters.RelationToPut | character.py:72-77 | after `set_relation`, `get_relation` (`RelationTo`) gives the new relation for that character and the old answer, NEUTRAL when nothing is stored, for every other |
| Characters.MergeSemantics | character.py:79-84 | after the merge (`Merge`) the attitude is the delta's if it has one, and each relation is the delta's where the delta has one and the old one elsewhere |
| Characters.MergeKeepsKeys | character.py:79-84 | the merge deletes no relation: old keys keep their order at the front, and the keys afterwards are those of both states |
| Characters.MergeSelf | character.py:79-84 | merging a state into itself leaves it unchanged |
| Characters.RelationPhrasesAll | character.py:90-97 | without a `relevant` filter, the description has one phrase "<relation> towards <name>" per relation, in insertion order |
| Characters.StateDesc | character.py:86-98 | the description starts with "<name> is feeling <attitude> and feels " |
| Characters.TranslateFormatted | character.py:114 | an answer in the requested format "<name>: <text>" gives back exactly the text from `TranslateReply` |
| Characters.Character.constructor | character.py:49-52 | a character starts CALM with no relations |
| Characters.Character.SetAttitude | character.py:64-66 | None changes nothing; a resolvable value sets the attitude; a value that does not resolve fails and leaves the state unchanged |
| Characters.Character.SetRelation | character.py:75-77 | None changes nothing; a resolvable value is stored under the character; an unresolvable one fails and changes nothing |
| Characters.Character.UpdateState | character.py:79-84 | the new state is the merge of the old state and the delta |
| Characters.Character.Translate | character.py:100-114 | makes one oracle call and keeps the stripped text after the last "<name>:" of the answer |
| Characters.Character.AdjustState | character.py:116-164 | makes two oracle calls, leaves the state unchanged, returns it, and always replaces the first answer with "New Attitude: none" |
| Text.FindSpec | mcts.py:56 | `find` returns the first position of the pattern, and nothing exactly when the pattern occurs nowhere |
| Text.JoinSplit | mcts.py:59 | joining the pieces of a split with the same separator gives the string back |
| Text.SplitHasSecond | character.py:137 | a split has a second piece exactly when the separator occurs |
| Text.SplitAtFirst | mcts.py:57-59 | splitting at a character the prefix lacks cuts off exactly that prefix |
| Text.StripChars | character.py:114 | `strip` only removes characters |
| Text.LowerStripNoUpper | character.py:137 | a lower-cased, stripped string has no upper-case letter |
| OrderedMap.PutGet | character.py:77 | after `d[k] = v`, reading `k` gives `v` and reading any other key gives what it gave before |
| OrderedMap.PutAllKeys | character.py:83-84 | a merge loop keeps every old key in place and only appends |
| OrderedMap.PutAllGet | character.py:83-84 | after a merge a key reads the delta's value when the delta has it, the old value otherwise |
| OrderedMap.PutAllSelf | character.py:83-84 | merging a dictionary into itself changes nothing |
| OrderedMap.PutOverwrites | dialogue.py:120 | two snapshots that differ only under `k` agree once `k` is assigned |
| Ranking.SortDescSorted | mcts.py:79 | the ranking `SortDesc` is in descending key order and is a permutation of its input |
| Ranking.SortDescStable | mcts.py:79 | elements with equal keys keep their relative order, as Python's stable `sorted` guarantees |
| Tree.BackpropRoot | mcts.py:172-176 | backpropagation from any node adds one visit to the root and keeps its allowed speakers |
| Tree.BackpropagateShape | mcts.py:172-176 | backpropagation keeps the tree well formed and adds exactly one visit to the root |
| Tree.BackpropagateCover | mcts.py:172-176 | backpropagation keeps every node's visits at least the sum of its children's |
| Planner.UcbPrefers | mcts.py:83-86 | `Ucb`: an unvisited node scores infinity, beats every visited node and is beaten by none; at equal visits, more reward scores higher |
| Planner.BestIndex | mcts.py:89 | `max` with a key: no score beats the chosen one, and every earlier score is strictly below it |
| Planner.BestChild | mcts.py:89 | the selected node is a child of the current node |
| Planner.BestChildMaximal | mcts.py:89 | no child's UCB beats the selected child's, and every child before it scores strictly lower |
| Planner.UnvisitedChildFirst | mcts.py:83-89 | when some child is unvisited, selection picks the first unvisited child |
| Planner.Descend | mcts.py:87-90 | selection ends at a node that is a leaf or has not been visited |
| Planner.FanAt | mcts.py:93-119 | child `a * k + i` of an expansion (`Fan`, `MakeChild`, `Samples`) belongs to actor `a`, is built from answer `a * k + i`, and holds the node's dialogue plus that line |
| Planner.FanSize | mcts.py:93-119 | an expansion creates `k` children per possible speaker |
| Planner.FanShape | mcts.py:112-118 | every new child hangs under the expanded node, is an unvisited leaf, and is spoken by one of the possible speakers |
| Planner.GrowKeeps | mcts.py:119 | appending the new leaves (`Grow`) keeps the tree well formed and keeps the visit cover |
| Planner.FirstWhere | mcts.py:50-60 | the first answer passing the test; none exactly when no answer passes |
| Planner.ParseTarget | mcts.py:57-59 | a parsed target names a non-player character; an unknown name is `Err(NoSuchCharacter)` (the `IndexError`) |
| Planner.ParseFormatted | mcts.py:57-59 | a target formatted "<name>: <text>" parses back into that name and text |
| Planner.TargetNamed | mcts.py:57-58 | a matched target's speaker is one of the non-player characters |
| Planner.CheckRunFound | mcts.py:46-61 | `CheckRun` asks about one target per call; a reported match is the parse of the first target the oracle said yes to; none exactly when every answer lacks "yes" |
| Planner.RoundsStep | mcts.py:155-168 | in `Rounds`, a round without a favourable verdict hands over to the next round, after the samples, the comparisons and one player turn |
| Planner.RoundsStop | mcts.py:164-165 | a favourable verdict in round `i` ends the rollout with `0.9 ** i` |
| Planner.RolloutNoVerdict | mcts.py:140-170 | a rollout with no favourable verdict in any round is worth 0 |
| Planner.RolloutFirstVerdict | mcts.py:140-170 | a rollout whose first favourable verdict is in round `d` is worth `0.9 ** d` |
| Planner.RolloutNoSamples | mcts.py:167 | with a rollout width of 0 and no verdict, `outputs[0]` fails, and so does the rollout |
| Planner.DecayUnit | mcts.py:165 | the discount `0.9 ** n` lies in (0, 1] |
| Planner.RolloutInUnit | mcts.py:122-170 | every rollout reward lies in [0, 1] |
| Planner.RolloutRunFacts | mcts.py:122-170 | `RolloutRun`, with the extra opening player turn after a non-player line, gives a reward in [0, 1] and fails only for want of samples |
| Planner.AskEach | mcts.py:145-153 | `count` oracle calls whose answers come back in order |
| Planner.AskUntil | mcts.py:155-165 | oracle calls up to the first answer that passes the test, and no further |
| Planner.RolloutRounds | mcts.py:140-170 | the rollout loop computes exactly the round-by-round reward and uses exactly its calls |
| Planner.SampleActor | mcts.py:104-119 | the inner expansion loop appends the `k` samples of one actor, in order |
| Planner.Sprout | mcts.py:93-119 | the expansion loops append exactly the fan of samples, actor by actor |
| Planner.RankOrder | mcts.py:79 | the ranking contains only the root's children, each a node of the tree other than the root |
| Planner.RankingFacts | mcts.py:79-80 | `Ranked` (and `Pairs`) is a permutation of the root's children, sorted by descending reward and stable on ties, each given as its speaker and text |
| Planner.RankedNames | mcts.py:79-80 | every ranked speaker is one the root allowed to speak |
| Planner.RankedTop | mcts.py:79-80 | every ranked node is a root child, and the `j`-th ranked child has at least the reward of every child not ranked before it |
| Planner.MarkDoneKeeps | mcts.py:74 | marking a node done keeps the tree and its statistics intact |
| Planner.LeafRunKeeps | mcts.py:65-67 | `LeafRun` (select, then expand with `Branching` samples when `Expands`: not done, and the root or visited) keeps the tree and its cover, returns a node of the tree or `Err(EmptyExpansion)`, and leaves the root's statistics alone |
| Planner.ParentIsRootChild | mcts.py:71 | `node.parent.parent is None` holds exactly for the root's children |
| Planner.EvaluateKeeps | mcts.py:68-78 | the evaluation of a node keeps the tree well formed and keeps the visit cover |
| Planner.EvaluateRoot | mcts.py:68-78 | an evaluation that lets the search go on adds one visit to the root; no evaluation changes the root's allowed speakers |
| Planner.EvaluateStop | mcts.py:69-72 | the search stops early only with a single target matched by a child of the root, leaving the tree as it was, or with a search error |
| Planner.EvaluateDeepMatch | mcts.py:73-78 | a target matched below a child of the root marks the node done and backpropagates a reward of 1 |
| Planner.IterateOutcome | mcts.py:64-78 | one iteration keeps the tree and the root's speakers, and either adds one visit to the root, or stops with one matched target, or fails with a search error |
| Planner.IterationsEnd | mcts.py:64-78 | every iteration of a planner keeps the tree and ends as `IterateOutcome` says |
| Planner.SearchFromOutcome | mcts.py:63-80 | a search ends in a search error, a single matched target, or the ranking of the final tree after one root visit per iteration |
| Planner.SearchFromNames | mcts.py:63-80 | every character a search returns is a non-player character or one the root allowed to speak |
| Planner.SearchRunOutcome | mcts.py:63-80 | a whole search of a planner (`SearchRun`) keeps the tree and the root's speakers and ends in a search error, a single matched target, or the ranking after `max_iterations` more root visits |
| Planner.SearchRunNames | mcts.py:63-80 | every character a whole search returns is a non-player character or one the root allowed to speak |
| Planner.RootAlone | mcts.py:40-44 | a fresh tree, a lone unvisited root, is well formed and its visits cover its children's |
| Planner.SearchFresh | mcts.py:26-44 | `MCTS(...).search()` on a fresh planner is exactly the search `SearchRun` from a lone root whose speakers are the player for a player search and the non-player characters otherwise |
| Planner.Mcts.constructor | mcts.py:26-44 | the tree starts as a lone root whose next speakers are the player for a player search and the non-player characters otherwise |
| Planner.Mcts.Select | mcts.py:82-90 | descends by UCB to a leaf or an unvisited node |
| Planner.Mcts.Expand | mcts.py:92-120 | adds `k` sampled children per possible speaker, in order, at `k` calls each; returns the first child, or `Err(EmptyExpansion)` when the node has none |
| Planner.Mcts.Backpropagate | mcts.py:172-176 | the tree becomes exactly `Backprop`: the node and each of its ancestors gain one visit and the reward; the tree stays well formed |
| Planner.Mcts.CheckTalkingPoints | mcts.py:46-61 | exactly `CheckRun`: asks about one target per call until the first "yes" and returns that target's parse |
| Planner.Mcts.Rollout | mcts.py:122-170 | exactly `RolloutRun`, the rollout reward, failing only with `EmptyRollout` |
| Planner.Mcts.Leaf | mcts.py:65-67 | the tree and node are exactly `LeafRun`: selects, and expands when the node is not done and is the root or visited, with `pc_exand` samples at the root of a player search |
| Planner.Mcts.MarkDone | mcts.py:73-75 | only the node's done flag changes |
| Planner.Mcts.Iterate | mcts.py:64-78 | the tree and the stop are exactly `IterateRun`; one iteration adds one visit to the root, or stops with a target matched one step below the root, or fails |
| Planner.Mcts.Search | mcts.py:63-80 | the tree and the result are exactly `SearchFrom` over `max_iterations` iterations; a single matched target, or the root's children ranked by reward after `max_iterations` root visits; every speaker is a character who may speak there |
| Dialogues.MinOrder | dialogue.py:85 | the least order among the points |
| Dialogues.OfOrder | dialogue.py:86 | the points of one order, in list order |
| Dialogues.OfOrderCount | dialogue.py:86 | the filter keeps every point of that order as often as it occurs, and no other point |
| Dialogues.NextTalkingPoints | dialogue.py:84-86 | the points of least order, in list order; `Err(NoTalkingPoints)` exactly when no point is left |
| Dialogues.NextTalkingPointsCount | dialogue.py:84-86 | the next points hold every point of least order as often as it occurs, and no other point |
| Dialogues.PointFor | dialogue.py:88-92 | the first point listing the text among its targets; none exactly when no point lists it |
| Dialogues.Without | dialogue.py:116 | the points not listing the text, in order |
| Dialogues.WithoutCount | dialogue.py:116 | removing the reached point keeps every point not listing the text as often as it occurs, and no point listing it |
| Dialogues.ConsumedGone | dialogue.py:114-116 | once a target is consumed, no remaining point lists it |
| Dialogues.FormatTargetsMembers | mcts.py:39 | the planner's target lines are exactly "<owner>: <target>" over the next points |
| Dialogues.FormattedTargetsParse | mcts.py:39 | every target line parses back into its owner and target |
| Dialogues.SaidBeforeExists | dialogue.py:151-156 | a speaker has spoken before turn `k` exactly when some earlier turn is theirs |
| Dialogues.PromptStep | dialogue.py:152-156 | one step of the prompt loop adds exactly the turn's note and keeps `last_states` in step |
| Dialogues.PromptLines | dialogue.py:148-157 | one line per turn, in order, each with its note |
| Dialogues.AnnotatedAtMostOnce | dialogue.py:150-156 | a later turn of the same speaker carries no note |
| Dialogues.AnnotatedFirst | dialogue.py:150-156 | a non-player character's first turn carries its state description |
| Dialogues.UndescribedNeverAnnotated | dialogue.py:154 | the player character is never annotated |
| Dialogues.DialoguePrompt | dialogue.py:148-157 | the prompt loop builds exactly the specified prompt lines |
| Dialogues.DescriptionsLookup | dialogue.py:153 | `Descriptions` is keyed by exactly the non-player characters' names, and each name gives that character's live state description |
| Dialogues.LiveStatesLookup | dialogue.py:81 | looking up a character in the live states (`LiveStates`) gives its state |
| Dialogues.StateAfterPcTurn | dialogue.py:79-102 | `get_state` (`Dialogue.State`, `Snapshot`) read right after the player's turn gives every non-player character's adjusted state under its name and the earlier snapshot's entry for every other key, even when that new snapshot is empty and the live states are read instead |
| Dialogues.SnapshotLookup | dialogue.py:97-100 | a snapshot with the live states written in reads the live state for every character and the old value for every other key |
| Dialogues.SnapshotPut | dialogue.py:119-124 | writing in the changed character's state hides any difference in that character's state before it |
| Dialogues.AdjustOne | dialogue.py:99 | `c.update_state(c.adjust_state(...))` makes two oracle calls and leaves the state as it was |
| Dialogues.AdjustAll | dialogue.py:98-100 | every non-player character makes two calls, keeps its state, and has that state written into the snapshot |
| Dialogues.PlannedFails | dialogue.py:107-113 | `Planned`, the search `MCTS(dialogue, is_pc).search()` runs over the dialogue: fails with `NoTalkingPoints` without asking the oracle exactly when no point is left, and otherwise only with a search error |
| Dialogues.PlannedRanks | dialogue.py:107-113 | a search gives a single matched target, or the root's children ranked by reward after `max_iterations` root visits, the first `n` at least as good as any other child |
| Dialogues.PlannedNames | dialogue.py:107-113 | every speaker a search returns is a non-player character or one the root allowed to speak |
| Dialogues.Dialogue.constructor | dialogue.py:30-77 | the loaded dialogue has no cached options and allows two player options |
| Dialogues.Dialogue.GetDialoguePrompt | dialogue.py:148-157 | the prompt of the current turns with the live descriptions |
| Dialogues.Dialogue.AddPcTurn | dialogue.py:94-102 | rewrites the text exactly when options are cached and it is not one of them, appends the turn with the snapshot, clears the cache, and keeps states and points; fails with `NoTalkingPoints`, at the point where the code raises, when no point is left |
| Dialogues.Dialogue.AppendPcTurn | dialogue.py:97-102 | appends the player turn with every non-player character's state written into the snapshot |
| Dialogues.Dialogue.RunSearch | dialogue.py:107-113 | result, tree and calls are exactly `Planned` over the current prompt and talking points |
| Dialogues.Dialogue.SearchOptions | dialogue.py:107-109 | a player search; on success caches and returns the texts (`Texts`) of the first `max_player_options` (`Take`) of exactly the ranking the search returned; a failure passes through and keeps the cache |
| Dialogues.Dialogue.GetPcOptions | dialogue.py:104-109 | returns non-empty cached options unchanged without a call; otherwise exactly `SearchOptions`: at most two texts of top-ranked player continuations |
| Dialogues.Dialogue.TakeNpcTurn | dialogue.py:111-127 | the line is the first pair of exactly the non-player search; a failure or an empty result changes nothing; a reached target is consumed, its effect merged and the text translated, any other text is said as it is with states and points unchanged; the turn, the speaker's state in the snapshot and the calls are stated, and the cache is cleared |
| Dialogues.Dialogue.Respond | dialogue.py:114-124 | a matched target is consumed, its effect merged and the text translated; otherwise the text is kept, and the snapshot gets the speaker's state |
| Dialogues.Dialogue.ReachPoint | dialogue.py:115-120 | consumes the target, merges its effect into the speaker and translates the text with one call |
| Dialogues.Dialogue.ConsumePoint | dialogue.py:115-117 | drops the points listing the text and merges the matching point's effect (`Effect`) into the speaker; nothing else changes |
| Dialogues.Dialogue.UpdateNpc | dialogue.py:117 | only the named non-player character's state changes, to the merge |
| Dialogues.Dialogue.AppendNpcTurn | dialogue.py:125-126 | appends the turn and clears the cached options |

## Left out

- Prompt text: the system, character, talking-point and dialogue prompts, and the messages sent to the oracle, are not modelled as strings. An answer depends only on its position in the stream, not on what was asked.
- `get_response` (llm.py): it becomes the `Oracle` answer stream. llm.py is not part of this model.
- main.py, the interactive loop, is not part of this model.
- `Dialogue.load` and JSON parsing: `Dialogue.constructor` takes the loaded characters, talking points and turns; the `IndexError` of `get_character` for an unknown name in the file is not modelled.
- `Dialogue.characters`, `get_character_prompt`, `get_system_prompt` and `get_talking_point_prompt`: prompt text only. Their one effect, the failure of `get_next_talking_points` on an empty list, is modelled where they are called.
- `Planner.Ucb`: the exploration term `2 * (2 * N / n) ** 0.5` is the parameter `bonus`, because the model has no real square root. Rewards are exact reals, not floats.
- `deepcopy` becomes value semantics: states and snapshots are values, so no aliasing between turns and characters is modelled.
- The `random` and `tqdm` imports are not used by the modelled code.
- `Characters.StateDesc`: its own contract states only the fixed prefix. The phrases after it are stated by `RelationPhrasesAll` for the unfiltered case, the only one the dialogue uses. The `relevant` filter is modelled but has no lemma of its own.
- Python's `str.lower` and `str.strip`: only ASCII letters are case-mapped, and only the ASCII whitespace and separator characters U+0009–U+000D, U+001C–U+001F and U+0020 are stripped; Unicode spaces above U+007F are not modelled.
- Link identity: `MCTSNode.parent` and `DialogueTurn.character` are object references in the code. The model uses an arena index and a name.
