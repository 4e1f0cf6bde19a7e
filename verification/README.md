# pyahocorasick, modelled and proved

A model of the Aho-Corasick engine behind the `ahocorasick` Python module: a mutable trie of letters, the breadth-first
construction of its fail links, the two searches over it, the enumerator of keys, and the two serialisers that flatten
the pointer graph and build it again. Nodes, automata, iterators, lists and buffers are classes whose methods update
fields in place, as in the C sources; what the fields stand for is a finite map from words to values, and text search is
compared with a naive search that knows nothing of tries.

`dafny verify dfyconfig.toml` checks everything.

## How it is organised

- `Words`, `Matches`, `Longest`, `Scans`: the theory on plain sequences. The longest suffix that is a node, naive search, chunks and
  ignored white space, greedy leftmost-longest matching and the scan that `iter_long` does.
- `TrieNodes`, `Automata`, `Tries`, `Traversal`, `Slists`: the linked trie, its invariant, adding, removing, finding,
  `ahocorasick_next`, depth-first traversal, the linked list used as a queue and as a stack.
- `Costs`, `Frontiers`, `Links`: lookups and fail steps as functions of words, `make_automaton` and what it costs.
- `Touched`: which nodes reading looks into when nodes were freed and the fail links are old.
- `SearchIters`, `Searches`, `LongIters`, `Patterns`, `ItemsIters`: the iterators and what draining them gives.
- `Dictionary`, `Upkeep`: the automaton as a dictionary, with counters, references, version and statistics.
- `Dicts`, `Runs`: an abstract dictionary without pointers (keys, nodes, fail links, version, cached statistics), what holds
  along its runs, and the proof that every run of an automaton refines it, reply by reply.
- `Views`, `Interleavings`, `Freed`: iterators as values; runs in which updates, new iterators and iterator steps
  interleave, answer by answer; what becomes of iterators when nodes are freed under their version.
- `Copies`, `Replicas`, `Pickles`, `SaveBuffers`, `Files`, `Saves`, `Loads`, `SaveLoad`: serialisation. A `Picture` is a trie
  without addresses; both round trips are stated as equality of pictures.

A letter is an abstract type with equality. A value is the number that lies in the `output` union, zero being the null
reference. A pointer field holds `Null`, `To(node)`, `Raw(number)` (a number not linked yet) or `Tag(id, saved)` (what
pickling puts in place of a fail link). Every node has a ghost `word`, every automaton a ghost map `nodes` from words to
allocated nodes; a freed node is one that left this map.

## Where the code does not do what it seems to promise

- **Removal is noticed by a non-null value.** In an automaton of integers a key that stores 0 is removed, but `remove_word`
  returns False, `pop` raises KeyError, and neither `count` nor `version` changes (src/Automaton.c:322, src/trie.c:104).
  `Dictionary.RemoveWord` and `Dictionary.Pop` report exactly when the key is there and its value is not zero;
  `Dicts.ZeroGoesUnnoticed` is a run in which it goes wrong. From this follow three exact conditions:
  - `len` is the number of keys exactly if no removal since the last `clear` went unnoticed (`Dicts.LostExactly`).
  - `get_stats` answers what a fresh traversal finds exactly if no removal went unnoticed after the statistics of this
    version were taken (`Dicts.StatsFreshExactly`).
  - After an unnoticed removal all nodes, and with them every iterator of the version, remain exactly if another key starts
    with the removed word (`Dicts.FreesExactly`, `Freed.AllStatesRemain`, `Interleavings.Interleave`). Otherwise an iterator
    may look into freed nodes:
    - A search iterator that skips no white space looks into remaining nodes only, for every text that may follow, exactly
      if the nodes it holds remain and no fail link of a remaining node leads to a freed one (`Touched.ReadsOnlyExactly`,
      `Freed.HarmlessIsReady`, `Freed.RemoveUnder`; with white space skipped, `Freed.HarmlessExactly`). For one text the
      predicate `Freed.Harmless` decides; an iterator at the end of its slice with nothing pending is always harmless. Steps
      that are harmless are also right: they give the hits of the remaining keys (`Freed.HarmlessIsRight`).
    - A longest-match iterator looks into remaining nodes only, for every text and while no early return can fire, exactly if
      the fail links of the remaining nodes that are no keys lead to remaining nodes; those of keys it then never follows
      (`Freed.LongHarmlessExactly`, `Freed.GreedyNeverEarly`); for other keys it is enough that all fail links do.
    - An enumerator looks into remaining nodes only, exactly if the nodes on its stack remain that are not too deep for its
      pattern (`Freed.WalkHarmlessExactly`).
    - With the keys "xy" and "y", the latter storing 0, an iterator that has read "x" to the end of its text stands on a node
      that remains when "y" is removed. If "y" is the next text it is given, its next step passes the version check, comes to
      "xy" and follows the fail link to the freed node (`Freed.StaleLinkAhead`, and the whole run in `Freed.RunIntoFreed`).
- **`pop` hands out an object in every store.** docs/automaton_pop.rst promises the value of the key, but the function returns
  the bits of the `output` union as an object pointer (src/Automaton.c:354-372, src/trie.c:104), where `get` makes a number of
  them for integers and lengths (src/Automaton.c:520-532). `Dictionary.Pop` and the replies of runs do what the code does;
  `Dicts.PopGivesTheValueExactly` says when the two agree, and `Dicts.PopGivesAnAddress` is a run in which "a" stores 7 and
  `pop` answers with the object at address 7.
- **`iter_long` is greedy leftmost-longest on all texts if and only if no trie node that is not a key has a fail link to a
  key** (`Longest.LongIsGreedyExactlyWhen`, and for what the caller sees `LongIters.ReportsAreGreedyExactlyWhen`;
  `Longest.ConditionsAgree` says the same of the keys alone). For any other dictionary `Longest.EarlyReturnGoesWrong` gives a
  text on which it goes wrong.
- **Pickling an automaton without keys** gives a fresh default one: store and key type are not kept
  (src/Automaton_pickle.c:204-207).
- **A stale fail link must not be pickled.** After a removal, nodes may hold fail links to freed nodes until the next
  `make_automaton`; `__reduce__` follows them (src/Automaton_pickle.c:164-168). `Pickles.Reduce` asks for live fail links.
  At any point of a run they are live exactly if no remaining node had a link whose target was freed since the links were
  built (`Dicts.LiveExactlyAlong`, `Runs.RunNew`), so whenever no removal freed nodes since (`Dicts.LiveUnlessFreed`); for one
  removal right after building `Dicts.LiveExactly` says it with the fail targets. `Dicts.StaleAfterRemoval` is a run that ends
  with a stale one.
- **`longest_prefix` on an empty automaton** follows a null root for any non-empty word (src/trie.c:164-166);
  `Tries.TrieLongest` gives nothing exactly then.
- **`load` refuses an empty value.** Reading zero bytes is an error (src/custompickle/load/loadbuffer.c:34-37), so an
  automaton of objects comes back exactly if the serialiser gives at least one byte for each value.
- **`load` leaves the fail links of a plain trie as old addresses** (src/custompickle/load/module_automaton_load.c:233).
  They are overwritten by the next `make_automaton` before they are read; until then they are not live, and the automaton
  must not be pickled.

## Model

| member | source | states |
|---|---|---|
| Words.Advance | src/trie.c:177-194 | the longest node suffix of text plus a letter depends only on the longest node suffix of the text: the state carries all that matters of the past |
| Words.FailOfChild | src/Automaton.c:618-631 | the fail link of a child is determined by the fail link of its parent and the letter |
| Words.FailIsLongest | src/Automaton.c:606-636 | no proper suffix that is a node is longer than the target of the fail link |
| Matches.FailChainIsSuffixKeys | src/AutomatonSearchIter.c:157-200 | walking fail links from a state meets exactly the keys the text ends with, longest first, whatever else the trie holds |
| Matches.NaiveIsAllOccurrences | src/AutomatonSearchIter.c:243-300 | naive search lists every occurrence inside the slice once, ordered by end and then by decreasing key length, and nothing else |
| Matches.AllOccurrencesUnique | src/AutomatonSearchIter.c:243-300 | there is only one such list, so the order of reports is determined |
| Matches.ChunkExtends | src/AutomatonSearchIter.c:303-368 | hits of a chunk, searched with the state and shift left by the earlier text, complete the hits of the whole text |
| Matches.SkippingIsDeleting | src/AutomatonSearchIter.c:269-287 | ignoring white space is searching the slice with white space deleted, every end index mapped back to its place in the text |
| Matches.PositionsMeaning | src/AutomatonSearchIter.c:269-287 | the mapped positions are strictly increasing and are exactly those of the letters kept |
| Matches.DeletedAre | src/AutomatonSearchIter.c:269-287 | the letters searched are those at the mapped positions |
| Longest.FirstIsLeftmostLongest | src/AutomatonSearchIterLong.c:89-153 | the greedy step finds a match whenever there is one: no key starts further left, none at the same start is longer |
| Longest.LongRunIsOrdered | src/AutomatonSearchIterLong.c:89-153 | for any dictionary the reports of the long scan are real occurrences inside the slice, with pairwise disjoint spans and strictly increasing ends |
| Longest.LongRunIsGreedy | src/AutomatonSearchIterLong.c:89-153 | if no early return can fire, the scan gives exactly the greedy leftmost-longest matches |
| Longest.EarlyReturnGoesWrong | src/AutomatonSearchIterLong.c:122-125 | if some early return can fire, there is a text on which the scan is not greedy leftmost-longest |
| Longest.ConditionsAgree | src/AutomatonSearchIterLong.c:122-125 | "no early return can fire" is the same as: every node with a key as a proper suffix is a key |
| Longest.LongIsGreedyExactlyWhen | src/AutomatonSearchIterLong.c:89-153 | greedy leftmost-longest on every text if and only if no non-key node has a fail link to a key |
| Scans.GreedyMeans | src/AutomatonSearchIterLong.c:89-153 | each greedy match starts first among the keys behind the match before and is the longest there, and behind the last one there is no key |
| Scans.LongRunMeans | src/AutomatonSearchIterLong.c:99-150 | for every dictionary, each report of the long scan and the letters read for it: the scan from behind the report before is quiet up to the first node that is a key or has a fail link to one; there it reports the fail target at once, or goes on down the trie until it breaks off, and reports the longest key met unless an early return comes first |
| TrieNodes.TrieNode.GetNext | src/trienode.c:42-56 | finds the link under a letter, null if there is none |
| TrieNodes.TrieNode.UnsetNextPointer | src/trienode.c:60-105 | removes exactly the first link to the child and keeps the order of the others |
| TrieNodes.LookupAppended | src/trienode.c:124-147 | a link added under a new letter changes the lookup of that letter only |
| TrieNodes.LookupRemoved | src/trienode.c:60-105 | a removed link changes the lookup of its letter only, and the table stays free of duplicates |
| Tries.TrieAddWord | src/trie.c:14-63 | the nodes become the old ones plus exactly the prefixes of the word, old nodes keep their identity, the keys gain the word; `new_word` says if it was no key |
| Tries.TrieRemoveWord | src/trie.c:66-136 | the keys lose exactly the word, the trie exactly the nodes no other key needs (the rest still spell all and only prefixes of keys); the freed nodes are those that left |
| Tries.BelowCut | src/trie.c:81-96 | below the last branching or terminal node there are only prefixes of the removed word |
| Tries.TrieFind | src/trie.c:139-155 | finds the node that spells the word, null if there is none |
| Tries.TrieLongest | src/trie.c:158-174 | the length of the longest prefix that is in the trie; nothing exactly for a non-empty word in an automaton without nodes, whose null root is followed |
| Tries.AhocorasickNext | src/trie.c:177-194 | moves to the node of the longest suffix of state plus letter, and does so with old links among the nodes that remain as long as no freed node is met; the child tables searched are those of the node suffixes of the state down to the one that reads the letter |
| Costs.LookupsAre | src/trie.c:177-194 | the number of child tables that a transition searches is that of the node suffixes of the state which are at most one letter shorter than the next state |
| Costs.LookupsBounded | src/trie.c:177-194 | a transition searches at most two child tables more than it moves up the trie |
| Costs.TextLookupsBounded | src/AutomatonSearchIter.c:276-287 | reading n letters from the root searches at most 2n child tables |
| Costs.TextLookupsAre | src/AutomatonSearchIter.c:276-287 | the child tables searched for a text are those of the node suffixes of each prefix which are at most one letter shorter than what is kept behind the next letter |
| Costs.TextLookupsEach | src/AutomatonSearchIter.c:276-287 | reading n letters searches at least n child tables |
| Costs.FailStepsAre | src/Automaton.c:618-631 | the fail links followed for a letter are those of the node suffixes, other than the root, that are longer than the one which reads it |
| Costs.LinkStepsAre | src/Automaton.c:618-631 | the fail links followed for a node are those of the proper node suffixes of its parent that are no shorter than its own fail target |
| Touched.TransitIsLongest | src/trie.c:177-194 | with nodes freed and links old, a transition that meets remaining nodes only still leads to the longest suffix among these |
| Touched.MeetsRightHits | src/AutomatonSearchIter.c:157-200 | a search with old links that looks into remaining nodes only meets exactly the hits of the remaining keys |
| Touched.ReadsOnlyExactly | src/AutomatonSearchIter.c:157-300 | every text read from a state, with the outputs on the way, looks into remaining nodes only, exactly if the state remains and no fail link of a remaining node leads to a freed one |
| Touched.ScanSafe | src/AutomatonSearchIterLong.c:99-150 | a longest-match scan looks into remaining nodes only if no fail link of a remaining node leads to a freed one |
| Touched.ScansOnlyExactly | src/AutomatonSearchIterLong.c:99-150 | while no early return can fire, every scan looks into remaining nodes only exactly if no fail link of a remaining node that is no key leads to a freed one |
| Traversal.PreorderVisits | src/trie.c:196-213 | traversal visits exactly the nodes at and below its start, each once |
| Traversal.PreorderInOrder | src/trie.c:196-213 | a node is visited before those below it, and of two words that part the one whose child is earlier in the table |
| Traversal.Traverse | src/trie.c:196-213 | the visited nodes and depths are those of the preorder walk in child-table order |
| Slists.List.Append | src/slist.c:64-79 | the list gains the item at its end |
| Slists.List.PushFront | src/slist.c:81-94 | the list gains the item at its front |
| Slists.List.PopFirst | src/slist.c:96-114 | takes the first item off, null from an empty list only |
| Frontiers.BuildIsLinear | src/Automaton.c:608-636 | the fail links that the construction follows, summed over all nodes, are at most the letters of all keys |
| Frontiers.BuildStepsAre | src/Automaton.c:608-636 | the fail links that the construction follows are the pairs of a node and a proper node suffix of its parent that is no shorter than its fail target |
| Links.FollowFails | src/Automaton.c:618-631 | the inner loop ends at the longest suffix that reads the letter; it follows the fail links of the longer node suffixes |
| Links.MakeAutomaton | src/Automaton.c:560-641 | every fail link leads to the longest proper suffix that is a node, whatever the links were before; the fail links followed are the pairs of `AllFollowed`, at most the letters of all keys; only a plain trie is changed |
| SearchIters.SearchIter.BuildOutput | src/AutomatonSearchIter.c:157-200 | takes the next key on the fail chain with its current value |
| SearchIters.SearchIter.Next | src/AutomatonSearchIter.c:243-300 | reports the first hit still pending and leaves the others; stops when there is none and the text is read; an error exactly if the version differs; the child tables searched are those the letters read account for |
| SearchIters.SearchIter.Set | src/AutomatonSearchIter.c:303-368 | a new chunk, given at any time, continues state and shift; a reset forgets them |
| Searches.Iterate | src/Automaton.c:875-966 | draining `iter` gives the end index and current value of each hit of the naive list over the slice, with white space ignored on request; the lookups are those of the places of `LookedInto` for the n letters read, between n and 2n |
| Searches.IterateChunks | src/AutomatonSearchIter.c:303-368 | draining chunk after chunk gives end index and value of the hits of one search over the concatenation, with absolute indices |
| Searches.FindAll | src/Automaton.c:652-714 | `find_all` calls back with end index and value for the naive list in order, with as many lookups as `LookedInto` has places, between n and 2n for n letters; not at all without fail links |
| Searches.ReportsAre | src/AutomatonSearchIter.c:157-200 | a report is the end index of a hit and the value stored for its key |
| LongIters.LongIter.Next | src/AutomatonSearchIterLong.c:89-153 | reports the next match of the long scan and goes on right behind it; the letters it reads are `Reads` of text and position |
| Longest.ReachIsNear | src/AutomatonSearchIterLong.c:99-150 | the scan stops at most the depth of the trie behind the end of its report, so it reads at most that many letters again |
| Longest.RunReadsBounded | src/AutomatonSearchIterLong.c:89-153 | all letters read for all reports are at most the slice plus the depth of the trie for each report |
| Scans.RunReadsEach | src/AutomatonSearchIterLong.c:89-153 | every letter of the slice is read |
| Scans.RunReadsAre | src/AutomatonSearchIterLong.c:89-153 | the letters read are those of the scan for each report and of the last one |
| LongIters.IterateLong | src/AutomatonSearchIterLong.c:89-153 | draining `iter_long` gives end index and value of each report of the long scan on every dictionary, of the greedy leftmost-longest matches if no early return can fire, and reads `RunReads` letters, at least the slice |
| LongIters.ReportsAreGreedyExactlyWhen | src/AutomatonSearchIterLong.c:89-153 | what the caller sees (end index and value) is that of greedy leftmost-longest matching on every slice of every text if and only if no non-key node has a fail link to a key |
| Patterns.WalkYieldsMatches | src/AutomatonItemsIter.c:138-207 | the walk yields exactly the keys of exactly, at most or at least the pattern's length that have its letter, or any letter where it has the wildcard, at every place both have; each once |
| Patterns.WalkInOrder | src/AutomatonItemsIter.c:174-207 | a key comes before those that extend it, and of two keys that part the one whose child is later in the table |
| Patterns.LoadShrinks | src/AutomatonItemsIter.c:138-185 | every round takes a node off the remaining work, so the enumeration ends |
| ItemsIters.ItemsIter.Next | src/AutomatonItemsIter.c:125-288 | yields the next key, value or pair; the shared buffer spells the key, written inside its bounds; an error exactly if the version differs |
| ItemsIters.MatchingKeys | src/AutomatonItemsIter.c:125-288 | the keys listed for an automaton are exactly those of the wanted length with the pattern's letters at all places without wildcard, each once, in the order of the walk |
| ItemsIters.PrefixedKeys | src/AutomatonItemsIter.c:138-207 | in the default mode without a wildcard these are the keys with the pattern as a prefix |
| ItemsIters.Enumerate | src/Automaton.c:721-872 | draining gives the key, the value or the pair of each listed key and no other, in the order of the walk |
| Dictionary.AddWord | src/Automaton.c:201-300 | stores the object, the number, without one the next number, or the length; ValueError for no object, TypeError for no number, with nothing changed; longest word, version, count and references follow; new nodes have no fail link; while the version stays so do nodes and child tables |
| Dictionary.RemoveWord | src/Automaton.c:327-351 | the word goes; reported exactly if it was a key with a non-null value; the version changes exactly then |
| Dictionary.Pop | src/Automaton.c:354-372 | as removal, handing out what is stored as an object whatever the store, KeyError exactly where removal would return False |
| Dictionary.Get | src/Automaton.c:501-552 | the object or the number stored for a key, its length in a store of lengths, else the default, else KeyError |
| Dictionary.Contains | src/Automaton.c:420-480 | membership is being a key; `match` is being a prefix of a key, or empty in an automaton that has a root |
| Dictionary.HoldsWithout | src/Automaton.c:327-351 | giving back the reference of one key keeps the references held equal to the multiset of stored values |
| Upkeep.Clear | src/Automaton.c:375-417 | visits each node once, gives back every reference, leaves the empty automaton |
| Upkeep.GetStats | src/Automaton.c:1044-1084 | keeps the statistics of this version, or else equals a fresh traversal (nodes, words, links = nodes - 1, longest word); always fresh if no word is lost |
| Upkeep.LinksOfPreorder | src/Automaton.c:1044-1059 | in a visited subtree there is one link less than nodes |
| Runs.Perform | src/Automaton.c:201-417 | one operation answers and changes the automaton like the abstract dictionary, fail links and cached statistics included; while the version stays and nothing is freed, nodes, child tables and fail links stay |
| Runs.Run | src/Automaton.c:201-641 | every sequence of operations gives the replies of the same run of the abstract dictionary, those of `make_automaton` and `get_stats` included, and keeps every invariant |
| Runs.RunNew | src/Automaton.c:201-641 | from a new automaton, fail links are live exactly if no remaining node had a link whose target was freed since the links were built, so whenever nothing was freed since |
| Runs.ValidIsSane | src/trie.c:14-136 | a valid automaton stands for a sane dictionary: its nodes are the root and the prefixes of its keys |
| Runs.TakenLinks | src/trie.c:66-136 | a removal leaves exactly the nodes that other keys need; links to freed nodes become stale, the others stay |
| Dicts.SaneReplay | src/Automaton.c:201-641 | along every run the nodes are the prefixes of the keys, an Aho-Corasick automaton has the right links, and links lead to nodes or are stale |
| Dicts.FreesExactly | src/trie.c:106-131 | a removal keeps all nodes exactly if another key starts with the word |
| Dicts.LostExactly | src/Automaton.c:328-372 | along every run `len` answers the number of keys exactly if no removal since the last `clear` went unnoticed |
| Dicts.StatsFreshExactly | src/Automaton.c:1062-1084 | along every run `get_stats` answers the numbers of nodes, keys and links and the depth exactly if no removal went unnoticed after the statistics of this version were taken |
| Dicts.LiveUnlessFreed | src/Automaton.c:579-640 | along every run fail links are live if no node was freed since they were last built |
| Dicts.LiveExactlyAlong | src/Automaton.c:579-640 | at any point of a run fail links are live exactly if no remaining node had a link whose target was freed since the links were built |
| Dicts.LiveExactly | src/trie.c:106-131 | right after the links were built, a removal leaves them live exactly if no link of a remaining node leads to a freed one |
| Dicts.NothingLost | src/Automaton.c:303-372 | while no zero is stored no removal goes unnoticed, at any point of a run |
| Dicts.AddedIsGiven | src/Automaton.c:201-300 | `get` gives back what `add_word` was given, the next number without one, or the length; the two errors and what they leave unchanged |
| Dicts.ZeroGoesUnnoticed | src/Automaton.c:322-345 | a run in which a key stores zero: removal answers False, yet the key is gone and still counted |
| Dicts.PopGivesTheValueExactly | src/Automaton.c:354-372 | `pop` answers as `get` would exactly if it removes from an automaton of objects, or the word is no key and `get` has no default |
| Dicts.PopGivesAnAddress | src/Automaton.c:354-372 | a run in which a key stores a number: `get` answers with the number, `pop` with the object at that address |
| Dicts.SuffixFreed | src/trie.c:104-131 | removing a suffix of another key that stores zero answers False and keeps the version, yet frees a node to which a remaining fail link leads |
| Dicts.StaleAfterRemoval | src/trie.c:104-131 | such a run from a new automaton: live before the removal, stale after it, same version |
| Views.KeptRun | src/AutomatonSearchIter.c:157-200 | when keys go while the nodes stay, a search still reports exactly the hits of the keys that remain |
| Views.KeptStack | src/AutomatonItemsIter.c:138-185 | when keys go while the nodes stay, an enumeration still lists exactly the keys that remain, in the same order |
| Views.SafeWithoutZeros | src/Automaton.c:322 | while no zero is stored, iterators may be made and stepped anywhere in any interleaving |
| Views.OpenAnswer | src/Automaton.c:884-889 | a list can be opened at any time, a search exactly with fail links |
| Interleavings.Operate | src/Automaton.c:283-345 | an update leaves every sound iterator of the current version sound unless it frees nodes without changing the version; what is left to it is what was left, without removed keys |
| Interleavings.StepOne | src/AutomatonSearchIter.c:243-251 | a step of one iterator answers by its view and the dictionary, and disturbs no other iterator |
| Interleavings.OpenOne | src/Automaton.c:721-1042 | a new iterator has before it every occurrence, the whole slice or the matching keys of the moment, whatever became of older iterators, and disturbs none of them |
| Interleavings.Interleave | src/AutomatonSearchIter.c:243-251 | in any interleaving of updates, new iterators and iterator steps every answer is that of the abstract run: a step gives an error exactly if the version has changed since its iterator was made, and the next of what it has left otherwise; a search is refused exactly without fail links; each iterator ends sound exactly as `SoundAtEnd` says |
| Interleavings.InterleaveNew | src/Automaton.c:201-1042 | the same for every safe run from a new automaton |
| Interleavings.WorldReady | src/AutomatonItemsIter.c:133 | while sound, an iterator of the current version holds nodes of the trie only and may be stepped |
| Freed.AllStatesRemain | src/AutomatonSearchIter.c:276-287 | whatever was read, the state a search stands on remains, exactly if no node was freed |
| Freed.LinkedExactly | src/Automaton.c:608-636 | among remaining nodes the fail links are right exactly if none leads to a freed node |
| Freed.SearchReadyExactly | src/AutomatonSearchIter.c:243-300 | after nodes were freed under its version, the invariant of a search iterator still holds exactly if the nodes it holds remain and no fail link of a remaining node leads to a freed one |
| Freed.LongReadyExactly | src/AutomatonSearchIterLong.c:89-153 | the same for the invariant of a longest-match iterator |
| Freed.ItemsReadyExactly | src/AutomatonItemsIter.c:125-150 | the invariant of an enumerator still holds exactly if the nodes on its stack remain |
| Freed.HarmlessExactly | src/AutomatonSearchIter.c:157-300 | whatever text follows, the steps of a search iterator look into remaining nodes only, exactly if its state and the fail chain of its output remain and no fail link of a remaining node without skipped letters leads to a freed one |
| Freed.HarmlessIsReady | src/AutomatonSearchIter.c:157-300 | for an iterator that skips nothing, this is the case exactly if its invariant holds |
| Freed.HarmlessIsRight | src/AutomatonSearchIter.c:157-300 | steps that look into remaining nodes only give the hits still pending, without those of the removed key |
| Freed.LongHarmlessExactly | src/AutomatonSearchIterLong.c:89-153 | a longest-match iterator whose invariant holds looks into remaining nodes only; while no early return can fire, any does for every text exactly if the fail links of remaining nodes that are no keys lead to remaining nodes |
| Freed.GreedyNeverEarly | src/AutomatonSearchIterLong.c:122-125 | for keys on which `iter_long` is greedy, no early return can fire after a removal that freed the node of the word |
| Freed.ScansPastKeys | src/AutomatonSearchIterLong.c:117-144 | keys for which every scan is harmless although a fail link leads to a freed node |
| Freed.WalkHarmlessExactly | src/AutomatonItemsIter.c:125-185 | the steps of an enumerator look into remaining nodes only, exactly if the nodes on its stack remain that are not too deep for its pattern |
| Freed.RemoveUnder | src/Automaton.c:328-345 | an unnoticed removal under a search iterator: which nodes remain with which links, exactly when the invariant of the iterator still holds, and that this is exactly when no text makes it look into a freed node |
| Freed.StaleLinkAhead | src/AutomatonSearchIter.c:161-167 | an iterator that stands on a remaining node, holds no other and is harmless at the end of its text looks into a freed node if a certain letter follows |
| Freed.RunIntoFreed | src/AutomatonSearchIter.c:243-300 | a run from a new automaton to such an iterator, with that letter before it and the version unchanged |
| Copies.CopyIsTree | src/Automaton_pickle.c:429-457 | nodes with the content of a tree, linked to each other accordingly, are that tree: every word is found where it was |
| Copies.CopyHasPicture | src/Automaton_pickle.c:429-457 | a faithful copy has the same picture and is linked for search exactly if the original is |
| Pickles.PickleData.Put | src/Automaton_pickle.c:139-185 | a record goes to the last chunk or, if it does not fit, to a new one; reading all chunks in order gives all records in order |
| Pickles.PickleData.ShrinkLastBuffer | src/pickle/pickle_data.c:59-91 | only the length of the last chunk changes, to what it uses |
| Pickles.NumberNodes | src/Automaton_pickle.c:71-95 | nodes get the numbers 1, 2, ... in visiting order, displaced fail links are kept; the total size is the sum over all nodes |
| Pickles.UndoReplace | src/Automaton_pickle.c:116-125 | every fail link is what it was |
| Pickles.Dump | src/Automaton_pickle.c:128-188 | the record stands for the node: numbers of the fail target and of the children, in table order |
| Pickles.Reduce | src/Automaton_pickle.c:191-275 | the chunks hold a record for every node in visiting order, the list every value in the same order; the last chunk is as long as its records, every other is a full one into which the next record did not fit; there is one exactly if a header for each node and a link for each but the root are no more than a full chunk; the automaton is unchanged |
| Pickles.Validate | src/Automaton_pickle.c:288-323 | the number of nodes, or ValueError exactly if some chunk has none |
| Pickles.Unpickle | src/Automaton_pickle.c:326-459 | succeeds exactly on chunks that are counted, not cut off, with numbers in range and a value for every key; then every pointer is linked by number; IndexError exactly if the first fault is a missing value, otherwise ValueError |
| Pickles.RelinkNodes | src/Automaton_pickle.c:413-457 | succeeds exactly if every number is that of a node and there is a value for every key; then every pointer is linked by number, every key has its value, and one reference is taken for each key |
| Pickles.ValueFound | src/Automaton_pickle.c:419-427 | the value of a key is at the place in the list that counts the keys before it |
| Pickles.LinkedIsCopy | src/Automaton_pickle.c:429-457 | nodes linked again by number are a copy of the numbered ones |
| Pickles.CopyByPickle | src/Automaton.c:107-149 | unpickling what `__reduce__` gave has the same picture (words, child order, keys, values, fail links) and is a valid automaton holding the same references; without keys it is a fresh default |
| SaveBuffers.SaveBuffer.Acquire | src/custompickle/save/savebuffer.c:53-70 | the place handed out is the end of everything stored; null exactly if it would not fit an empty buffer |
| SaveBuffers.SaveBuffer.Store | src/custompickle/save/savebuffer.c:73-90 | data of any size follows everything stored, within capacity |
| SaveBuffers.WriteAll | src/custompickle/save/savebuffer.c:43-114 | for any sequence of writes the file ends up as their concatenation |
| Files.LinksReinterpreted | src/custompickle/load/module_automaton_load.c:129-142 | reading back the bytes of a child table gives the child table |
| Files.EntryLaidOut | src/custompickle/save/automaton_save.c:84-138 | an entry is the address, the node, its links one behind the other and the bytes of its value |
| Saves.Save | src/custompickle/save/automaton_save.c:40-138 | the file starts with kind, store, key type, count and longest word, has one entry per node with the root first, and ends with the number of nodes; every entry is that of its node |
| Loads.SortSorts | src/custompickle/load/module_automaton_load.c:186-206 | sorting by address orders the table strictly and keeps its pairs |
| Loads.LookupAddress | src/custompickle/load/module_automaton_load.c:209-225 | binary search finds the new node of an old address, null exactly if there is none |
| Loads.LoadBuffer.FixupNode | src/custompickle/load/module_automaton_load.c:228-250 | succeeds exactly if all addresses are known; then children, and fail links of an Aho-Corasick automaton only, lead to the new nodes |
| Loads.LoadBuffer.LoadNode | src/custompickle/load/module_automaton_load.c:102-183 | reads one entry; fails exactly on a value of no bytes |
| Loads.Load | src/custompickle/load/module_automaton_load.c:46-99 | a file that save wrote is loaded exactly if no value is empty, ValueError otherwise; every node is linked as its entry says |
| SaveLoad.SavedSuits | src/custompickle/save/automaton_save.c:84-138 | what save writes is closed: every address in it is that of an entry, and no two entries share one |
| SaveLoad.LoadedIsCopy | src/custompickle/load/module_automaton_load.c:253-280 | the loaded nodes are a copy; in a plain trie fail links keep the old addresses |
| SaveLoad.ReadableExactly | src/custompickle/load/loadbuffer.c:25-45 | all entries can be read exactly if every stored object has bytes |
| SaveLoad.SameReferences | src/custompickle/load/module_automaton_load.c:145-168 | the references taken while loading, one for each object made, are those the original holds |
| SaveLoad.CopyBySave | src/custompickle/load/module_automaton_load.c:46-99 | loading what save wrote gives a valid automaton with the same words, child order, keys and values, and the same fail links if it was linked; it fails exactly if some object has no bytes |

## Left out

- Argument parsing, type objects, error texts, module initialisation and the conversion of strings and tuples to letters; `iter` starts from resolved bounds with 0 <= start and end <= length.
- Allocation failure, I/O failure, failing serialisers and fault injection: every allocation and write succeeds.
- The width of C integers: `count`, `version`, sizes and indices are unbounded.
- The surrogate-pair paths for two-byte characters, which supported builds do not compile.
- `set` on the long iterator, `dump`, `__sizeof__`, `__len__` apart from its value in a run, and the iterator protocol around `next`.
- Callbacks that raise or change the automaton while `find_all` or a traversal runs.
- A traversal with a callback is a list of visited nodes followed by a loop over it; the callbacks modelled do not change what is traversed.
- `clear` recurses in the source; here the nodes are listed in the same order and then released.
- Freed memory is a node that left the ghost map `nodes`; reference counts are the ghost multiset `held`, without the counts of the Python objects themselves.
- The bytes of a structure: a byte of a file is a byte of a value, and a pickled record is its fields together with a size linear in the number of links.
- Pickles.Validate: the counter of a chunk is taken to be the number of records in it; a chunk where they differ has no meaning in the model.
- Pickles.Unpickle: a record whose child has number zero, which no writer produces and which the source would look up in unset memory, is excluded; counts, sizes, numbers beyond the last node and missing values are checked.
- Loads.Load: files that save did not write.
- Traversal.Traverse: a callback that stops the traversal; only a failed allocation or serialiser call does that.
- `qsort` is an insertion sort on the table, `bsearch` a binary search loop; the C library is not modelled.
- Table and lookup arrays that are reallocated item by item are sequences reassigned by the methods.
- Interleavings.Interleave: an iterator is not given new text in the middle of a run; `Set` keeps its invariant. Iterators that exist before the run need a view, which `HasView` gives each one that may be stepped.
- Searches.Iterate: the automaton is required to be linked; that `iter` is refused otherwise is part of `Interleavings.Interleave`.
- Freed.LongHarmlessExactly: where an early return can fire, only one half is stated for all texts; which nodes a scan comes to then depends on the texts that avoid the early returns.
- Files.LinksReinterpreted: a byte of a file carries the whole value it is a byte of, so that decoding gives the value back holds by construction; the layout of a structure in memory is not modelled.
- SaveLoad.CopyBySave: addresses are a given injective numbering of the nodes and the serialisers a given inverse pair on the stored values.
