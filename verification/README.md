# Verified models of algorithms in git

This project models algorithms of git 2.55 that do little input and output of their own, and proves
what they promise. Each Dafny module but Wrappers follows one part of one C file. What those files take from
elsewhere is a parameter: a diff is any valid edit script, the object hash is any function, the file
system is any function from paths to what `lstat` and `readlink` say, and downloads and unbundling
answer as they like.

| module | what it models | main results |
|---|---|---|
| CbTree | the crit-bit tree of `cbtree.c`, with tagged pointers into a heap of nodes | insertion adds exactly the key; lookup is membership; a prefix walk visits exactly its keys, in order |
| Fingerprints, BlameMatch, BlameLimits | the fuzzy line matcher of `blame.c` | chunk and window hold for every chunk; where the line map and the certainties fit an int, answers are in order and no line is left out that could still be matched; what happens where they do not fit |
| BlamePass | passing blame from a commit to its parent in `blame.c` | every final line ends up once, on the line the edit script says |
| Bits, Coalesce, Combine | combined diffs in `combine-diff.c` | every parent of a merge can be read back if and only if there are at most 32; a further parent is added as a shortest common supersequence |
| Bisect | weights, choice and narrowing in `bisect.c` | weights are reachability counts; the choice is near the best, but for one commit missed a TREESAME merge; every session finds the first bad commit |
| Image, Apply | images and hunks in `apply.c` | the nearest match is found, with as much context as possible; a well-formed patch turns the old file into the new one, and its reverse turns it back |
| AddPatch, ChosenPatch | splitting, merging and renumbering hunks in `add-patch.c` | the patch emitted for any choice, applied with the code of `apply.c`, changes the chosen groups and nothing else, in either direction; the one kind of split for which it does not, exactly |
| BundleUri | the bundle walk of `bundle-uri.c` | it ends whatever fails; what success, failure and the stored token mean; when it must succeed |
| Base85 | the codec of `base85.c`, and the line test of `apply.c` | round trip; exact rejection; the test admits exactly what the decoder uses up |
| AbsPath | symlink resolution in `abspath.c` | it ends, the result is canonical and free of links; it succeeds exactly where pathname resolution does on files made lenient in three ways, with the same result |
| Attr | the attribute stack and macros of `attr.c` | lookups do not depend on earlier ones; which line of which file decides; macros end, cyclic or not |
| Alias | quoting and in-place splitting of command lines in `alias.c` | splitting undoes quoting, except for no arguments at all, and every other way to write arguments |
| CacheTree, CacheTreeFormat, CacheTreeUpdate, CacheTreeRead | the cache tree of `cache-tree.c` | what is written is read back; the tree objects hold the index; after any edits and invalidations, updating equals computing from nothing, node for node |

Some things differ from what one may expect of the code, and are proved as they are, each with the exact
condition, or a bound that is reached, and a concrete input:

- `coalesce_lines` shifts an int where the rest of `combine-diff.c` shifts an unsigned long, so that merges
  of 33 and more parents show lines of one parent as lost from another (`Combine.ReadableToThirtyTwo`,
  `Combine.OctopusFails`).
- The line map of the fuzzy matcher multiplies two line counts in an int. Where the product is too large,
  lines are mapped out of the chunk, and answers can go backwards (`BlameMatch.Chunk.MapStaysInChunk`,
  `BlameLimits.OverflowedRun`). Scores and certainties are ints too, and too small for lines of more than
  1073741 byte pairs (`BlameMatch.CertaintiesFit`): answers can go backwards (`BlameLimits.HeavyRun`), and a
  line can be left without a parent although one is alike (`BlameLimits.HeavyLineRun`).
- The search for the commit to test counts a TREESAME merge of interesting commits as if it changed the tree,
  and may stop before all weights are known. At most one commit a merge is missed (`Bisect.FindBisection`),
  and that one may be the best (`Bisect.OctopusRun`).
- A hunk whose last line lacks a newline also matches a longer line that starts with it and hashes
  alike, unless the end of the file is required (`Image.MatchMeansSameLines`, with the concrete case
  `Image.NewlineIsNotSeen`): the comparison of bytes ends before the newline, and the hash skips white space.
- The pieces of a split hunk are merged again exactly when the hunk does not start, without context before,
  with lines that are only removed (`ChosenPatch.PiecesTouch`). If it does, the patch for all of it consists of
  hunks that overlap (`ChosenPatch.SplitDecides`), and applying it fails (`ChosenPatch.DeletionAtTheTop`,
  `ChosenPatch.TopPatchIsRefused`). The results about sessions ask for hunks that are `Tellable`, which
  excludes just those; a hunk that starts with a context line always is.
- Splitting does not undo quoting for no arguments at all: the empty line splits into one empty argument
  (`Alias.SplitUndoesQuote`).

Lists that the C code links in place are sequence fields or variables that methods reassign, buffers
are strings, fixed tables are arrays, and loops are loops with the same branches. Integers are unbounded
except where their width matters: bytes and masks in CbTree, words of bits in Combine, the line map, scores
and certainties in BlameMatch, the line in the header of a hunk in Apply, the 32 bits of Base85 and of the
line hash, and the 24 bits of a table entry.

`dafny verify dfyconfig.toml` checks everything.

## Model

| member | source | states |
|---|---|---|
| CbTree.Direction | src/git-2.55.0/cbtree.c:27 | the carry out of one byte picks the side: child 1 exactly when the bit that the mask leaves clear is set |
| CbTree.CritMaskSplits | src/git-2.55.0/cbtree.c:64-70 | the mask computed for two different bytes sends them to different sides, the larger one to child 1 |
| CbTree.CritMaskIsFirst | src/git-2.55.0/cbtree.c:64-68 | no mask of a higher bit tells the two bytes apart, so the mask marks their first difference |
| CbTree.BranchOrders | src/git-2.55.0/cbtree.c:66-75 | keys that agree up to a branching position are ordered bytewise by the side they take there |
| CbTree.BestFindsKey | src/git-2.55.0/cbtree.c:21-32 | in a well-formed tree the best match of a key that is in the tree is that key |
| CbTree.StopSeparates | src/git-2.55.0/cbtree.c:78-93 | where the walk of the insertion stops, all keys below agree with the new key up to the critical position and take the other side there |
| CbTree.PassesStrictly | src/git-2.55.0/cbtree.c:86-93 | every internal node passed before that lies strictly before the critical position, and all keys below it agree with the new key up to it |
| CbTree.SpliceWellFormed | src/git-2.55.0/cbtree.c:72-96 | splicing in the new node keeps positions strictly increasing down every path and adds exactly the new key |
| CbTree.SpliceInner | src/git-2.55.0/cbtree.c:72-96 | the internal nodes become the old ones and the inserted one, all distinct |
| CbTree.LeavesAscend | src/git-2.55.0/cbtree.c:108-119 | visiting child 0 before child 1 visits keys in strictly ascending byte order |
| CbTree.LeavesAreContents | src/git-2.55.0/cbtree.c:108-119 | the leaves visited are exactly the nodes stored, once each |
| CbTree.PrefixedKeysAreBelowTop | src/git-2.55.0/cbtree.c:132-141 | every key with the prefix lies below the pointer that the walk remembers |
| CbTree.TopSharesPrefix | src/git-2.55.0/cbtree.c:143-149 | the keys below it have the prefix exactly when the best match has it |
| CbTree.TopListsPrefixed | src/git-2.55.0/cbtree.c:132-149 | so the leaves below it are all keys with the prefix in ascending order, or there are none |
| CbTree.SlotFromIsSlot | src/git-2.55.0/cbtree.c:77-93 | the loop over child pointers ends at the pointer that the recursive definition of the splice replaces |
| CbTree.SpliceHolds | src/git-2.55.0/cbtree.c:72-96 | redirecting that one pointer to the new node turns a heap that spells the old tree into one that spells the spliced tree |
| CbTree.Tree.BestMatch | src/git-2.55.0/cbtree.c:21-32 | following tagged pointers reaches the best match |
| CbTree.Tree.FindSlot | src/git-2.55.0/cbtree.c:77-93 | finds the pointer to overwrite |
| CbTree.Tree.Redirect | src/git-2.55.0/cbtree.c:95-96 | exactly one pointer changes, and the new node has the old subtree on one side and itself on the other |
| CbTree.Tree.Insert | src/git-2.55.0/cbtree.c:35-99 | a new key is added to the set and nothing else changes; a duplicate returns the node that is there and changes nothing |
| CbTree.Tree.Lookup | src/git-2.55.0/cbtree.c:101-106 | returns the node of a key in the set and nothing for any other key |
| CbTree.Tree.Descend | src/git-2.55.0/cbtree.c:108-119 | calls in leaf order until an answer is not zero, which is returned |
| CbTree.Tree.FindTop | src/git-2.55.0/cbtree.c:132-141 | the walk ends at the best match and remembers the subtree below the last branch inside the prefix |
| CbTree.Tree.Each | src/git-2.55.0/cbtree.c:121-150 | calls for exactly the keys with the prefix, once each, in ascending order, cut short only by a nonzero answer |
| Fingerprints.GetFingerprint | src/git-2.55.0/blame.c:389-425 | the loop over a line counts each byte pair, white space at either end included, without case |
| Fingerprints.SimilarityShrinks | src/git-2.55.0/blame.c:463-478 | taking byte pairs away from a fingerprint never raises a similarity |
| BlameMatch.CertaintiesFit | src/git-2.55.0/blame.c:677-716 | where the line map fits an int, no certainty can leave the range of an int, whatever the parent has, exactly when no target line has more than 1073741 byte pairs |
| BlameMatch.ShortIsLight | src/git-2.55.0/blame.c:389-425 | lines of fewer than 1073741 bytes have no more |
| BlameMatch.Chunk.MapStaysInChunk | src/git-2.55.0/blame.c:552-559 | in 32-bit arithmetic, the map puts every target line inside the parent chunk exactly when (2 * lengthB - 1) * lengthA fits an int |
| BlameMatch.Chunk.ClosestIsMiddle | src/git-2.55.0/blame.c:544-559 | then it leads to the parent line in which the middle of the target line's share of the chunk lies; between sides of equal length it is the identity |
| BlameMatch.Chunk.WindowReach | src/git-2.55.0/blame.c:951-973 | a target line is compared with that line and the ten at either side of it, and so with all if the parent side has no more than eleven |
| BlameMatch.Chunk.WindowsApart | src/git-2.55.0/blame.c:552-559 | then target lines more than the search distance apart have search windows that do not meet and that lie in order |
| BlameMatch.Matcher.Lookup | src/git-2.55.0/blame.c:671-688 | a similarity is computed once, as a product in an int, and read from the cache afterwards, with the same value |
| BlameMatch.Matcher.Scan | src/git-2.55.0/blame.c:659-698 | finds a best and a second best parent line of the window |
| BlameMatch.Matcher.FindBest | src/git-2.55.0/blame.c:636-731 | sets the result and certainty of one line to those of its window, the certainty computed in an int, or marks it as matching nothing |
| BlameMatch.Matcher.MostCertain | src/git-2.55.0/blame.c:785-809 | evaluates all lines and picks the first one of the highest certainty, or none if no certainty is positive |
| BlameMatch.Matcher.Invalidate | src/git-2.55.0/blame.c:855-876 | exactly the lines within the search distance with a best or second best answer that is not on their side of the fixed line are to be computed again |
| BlameMatch.Matcher.FarLinesInOrder | src/git-2.55.0/blame.c:822-876 | while the products fit, that is enough: lines further away only have answers on their own side |
| BlameMatch.Matcher.Commit | src/git-2.55.0/blame.c:811-876 | makes the most certain line final; while the products fit, the two halves are confined to what it leaves them |
| BlameMatch.Matcher.Assembled | src/git-2.55.0/blame.c:880-914 | answers of both halves around the fixed line are in order |
| BlameMatch.Matcher.Recurse | src/git-2.55.0/blame.c:765-914 | the recursion ends; answers lie in the chunk and in each window and share a byte pair with the line, and while products and certainties fit they never decrease in target order; what the answered lines take out of the parent lines is exactly what is missing there in the end, and no line without an answer has anything in common with what is left of the parent lines in its window that lie between the answers around it; all lines stay without an answer exactly when none scores |
| BlameMatch.ScoringIsAlike | src/git-2.55.0/blame.c:671-688 | for lines of at most 1073741 byte pairs, scoring with another line is having a byte pair in common with it |
| BlameMatch.FuzzyFindMatchingLines | src/git-2.55.0/blame.c:925-1002 | answers lie inside chunk and windows and share something with their line; if (2 * lengthB - 1) * lengthA fits an int and no target line has more than 1073741 byte pairs, they never go backwards and leave out no line that has something in common with what the others leave of a parent line that it could still be given; nothing is matched exactly when nothing scores, which for such lines is exactly when no two lines are alike; no answer at all exactly when the parent side is empty |
| BlameMatch.PairedIsAnswered | src/git-2.55.0/blame.c:925-1002 | so a chunk in which each target line is alike to just one parent line in its window, in ascending order, is answered completely, with just these lines |
| BlameLimits.OverflowedMap | src/git-2.55.0/blame.c:552-559 | three target lines against 858993460 parent lines do not fit: the last one is mapped to the first parent line, far before the first one, and nothing is invalidated that far |
| BlameLimits.OverflowedRun | src/git-2.55.0/blame.c:765-914 | on that chunk the recursion answers 143165576 for the first target line and 0 for the last: the order falls |
| BlameLimits.HeavyRun | src/git-2.55.0/blame.c:671-716 | two lines of 1.1 million bytes against the same two in the other order: both certainties come back below zero, nothing is matched first, and the answers are 1 and 0 |
| BlameLimits.HeavyLineRun | src/git-2.55.0/blame.c:671-688 | a line of 2.2 million bytes against the same in capitals: the score comes back below zero, and the line is left without an answer |
| BlamePass.ReverseBlame | src/git-2.55.0/blame.c:1620-1630 | reverses a list in front of another |
| BlamePass.SplitBlameAt | src/git-2.55.0/blame.c:1639-1653 | the two entries cover the lines of the one, cut at the suspect line |
| BlamePass.CountCut | src/git-2.55.0/blame.c:1639-1653 | cutting entries at a line loses, duplicates and moves no final line |
| BlamePass.AlignSkips | src/git-2.55.0/blame.c:1926-1937 | hunks that end before a line do not affect its alignment |
| BlamePass.AlignedLinesAreEqual | src/git-2.55.0/blame.c:1926-1937 | for a valid edit script, alignment pairs equal lines |
| BlamePass.AlignBackInverts | src/git-2.55.0/blame.c:1926-1937 | and maps back |
| BlamePass.Pass.BlameBefore | src/git-2.55.0/blame.c:1814-1853 | the first loop moves what lies before the differing part to the parent, shifted, and cuts at its start |
| BlamePass.Pass.BlameInside | src/git-2.55.0/blame.c:1868-1895 | the second loop keeps what lies inside, and cuts at its end |
| BlamePass.Pass.CutList | src/git-2.55.0/blame.c:1805-1914 | both parts of a cut list are sorted, even when source ranges overlap |
| BlamePass.Pass.BlameChunk | src/git-2.55.0/blame.c:1805-1914 | one call splits the pending lines at both ends of the differing part: counts of every final line at every source line, on all three lists |
| BlamePass.Pass.ConsumeHunk | src/git-2.55.0/blame.c:1926-1937 | one hunk moves the frontier on; the offsets must agree, else it stops |
| BlamePass.Pass.ConsumeRest | src/git-2.55.0/blame.c:1970-1973 | the last call passes on all that is left |
| BlamePass.MergedCount | src/git-2.55.0/blame.c:1079-1117 | merging keeps every line of both lists |
| BlamePass.MergedSorted | src/git-2.55.0/blame.c:1079-1117 | and keeps the order |
| BlamePass.BlameMerge | src/git-2.55.0/blame.c:1079-1117 | the loop of alternating runs computes the merge |
| BlamePass.QueueBlames | src/git-2.55.0/blame.c:1218-1234 | passed entries are merged into those the parent has |
| BlamePass.PassBlameToParent | src/git-2.55.0/blame.c:1944-1980 | for any valid edit script each final line ends once on target or parent; it goes to the parent exactly when its suspect line is in no hunk, to the line the script aligns it with; both lists stay sorted; it dies exactly on a misaligned script |
| Coalesce.LcsSteps | src/git-2.55.0/combine-diff.c:220-238 | neighbouring cells of the table differ by at most one |
| Coalesce.SupersequenceIsLong | src/git-2.55.0/combine-diff.c:182-303 | no common supersequence is shorter than both lengths minus the longest common subsequence |
| Coalesce.FillTable | src/git-2.55.0/combine-diff.c:210-238 | the table holds for every cell the direction that longest common subsequences give it |
| Coalesce.DirectMeans | src/git-2.55.0/combine-diff.c:220-238 | what each direction says about the two lists |
| Coalesce.CoalescedIsShortest | src/git-2.55.0/combine-diff.c:182-303 | reading the directions back gives a shortest common supersequence, whatever marks the matches |
| Coalesce.CoalescedReads | src/git-2.55.0/combine-diff.c:182-303 | if the mark stands for the new parent alone, it reads the lines it lost, and every other parent what it read before |
| Coalesce.IsShortest | src/git-2.55.0/combine-diff.c:182-303 | both lengths minus the longest common subsequence is as short as can be |
| Coalesce.WalkBack | src/git-2.55.0/combine-diff.c:244-289 | walking the directions back merges the new list into the old one in place, a match setting the bits of a one shifted as an int |
| Coalesce.CoalesceLines | src/git-2.55.0/combine-diff.c:182-303 | a later parent is added as a shortest common supersequence; below 32, it reads the lines it lost, and the others read what they read before |
| Bits.HasBit | src/git-2.55.0/combine-diff.c:342 | 1UL shifted by n sets bit n and no other, for all 64 bits |
| Bits.OneShiftedHas | src/git-2.55.0/combine-diff.c:249 | the int 1 shifted by n does the same for n below 31; shifted by 31 it sets bits 31 to 63 of the word |
| Combine.Combiner.AppendLost | src/git-2.55.0/combine-diff.c:339-357 | records a lost line of one parent in front of a result line |
| Combine.Combiner.ConsumeHunk | src/git-2.55.0/combine-diff.c:369-401 | a hunk header decides the line and the bucket that its lost lines go to, and writes the parent line that the hunk starts at, of this parent alone |
| Combine.PendingClean | src/git-2.55.0/combine-diff.c:403-418 | lines that no hunk touches read as the result has them |
| Combine.RecordedReads | src/git-2.55.0/combine-diff.c:403-418 | after the diff of a parent, lost lines and unflagged result lines spell its file |
| Combine.Combiner.ConsumeDiff | src/git-2.55.0/combine-diff.c:403-418 | the loops over a diff record just that |
| Combine.LineCoalesced | src/git-2.55.0/combine-diff.c:464-481 | coalescing a line turns what was recorded into what the parent reads, and changes no other parent, for parents below 32 |
| Combine.DiffedReads | src/git-2.55.0/combine-diff.c:420-489 | for a parent below 32, its file can be read afterwards, and every other parent below 32 reads what it read before |
| Combine.Combiner.NumberOne | src/git-2.55.0/combine-diff.c:464-488 | one turn numbers a line and coalesces what was lost in front of it |
| Combine.Combiner.AssignNumbers | src/git-2.55.0/combine-diff.c:464-488 | the loop numbers every line with the first parent line shown from there on |
| Combine.Combiner.CombineDiff | src/git-2.55.0/combine-diff.c:420-489 | one diff is recorded, coalesced and numbered; columns of other parents stay |
| Combine.CopiedReads | src/git-2.55.0/combine-diff.c:890-897 | copied marks read as the parent they were copied from |
| Combine.ReusedReads | src/git-2.55.0/combine-diff.c:878-903 | so an identical parent reads the same file |
| Combine.Combiner.ReuseCombineDiff | src/git-2.55.0/combine-diff.c:878-903 | copies flags, marks and numbers of one parent to another and touches nothing else |
| Combine.StillNumbered | src/git-2.55.0/combine-diff.c:1186-1202 | one more parent leaves the columns of all parents right |
| Combine.OctopusFails | src/git-2.55.0/combine-diff.c:249 | a merge with 33 and more parents, of which none has the file of the result: when the 32nd matches a line lost from the first, the 33rd reads a line that it never had |
| Combine.ReadableToThirtyTwo | src/git-2.55.0/combine-diff.c:1186-1202 | every parent of every merge with so many parents can be read back exactly when they are at most 32 |
| Combine.Combiner.ShowPatchDiff | src/git-2.55.0/combine-diff.c:1186-1202 | the loop over the parents computes that; with up to 32 parents every one can be read back and its column numbers it, whether diffed or reused |
| Bisect.PathReaches | src/git-2.55.0/bisect.c:45-70 | the end of a path is reached |
| Bisect.ReachHasPath | src/git-2.55.0/bisect.c:45-70 | what is reached lies at the end of a path |
| Bisect.Bisection.CountDistance | src/git-2.55.0/bisect.c:45-70 | marks what is reached anew and counts the tree-changing commits among it, across its recursion over merges |
| Bisect.Bisection.CountInterestingParents | src/git-2.55.0/bisect.c:96-108 | counts the parents that are not excluded, all or the first |
| Bisect.WeightOfRoot | src/git-2.55.0/bisect.c:295-301 | a commit without interesting parents reaches only itself |
| Bisect.WeightFromParent | src/git-2.55.0/bisect.c:376-383 | with one interesting parent the weight is the weight of the parent, plus one for a change |
| Bisect.Bisection.InitWeights | src/git-2.55.0/bisect.c:290-315 | the first loop gives a root its weight, zero or one, and marks all others by whether they have one interesting parent or more |
| Bisect.Bisection.WeighMerges | src/git-2.55.0/bisect.c:333-348 | the second loop counts what each merge reaches and touches no other weight; it may stop at a commit that is halfway |
| Bisect.Bisection.NextKnown | src/git-2.55.0/bisect.c:352-390 | while a commit is unknown, the lowest one has a known parent |
| Bisect.Bisection.FillPass | src/git-2.55.0/bisect.c:352-390 | so each pass makes progress, and the loop over counted commits ends |
| Bisect.Bisection.FillOne | src/git-2.55.0/bisect.c:376-383 | a filled-in weight is the number of tree-changing commits reached |
| Bisect.Bisection.BestBisection | src/git-2.55.0/bisect.c:187-209 | the first tree-changing commit of the greatest distance among those with a weight |
| Bisect.Bisection.HalfwayIsGood | src/git-2.55.0/bisect.c:110-140 | a commit accepted as halfway is a choice that is good enough |
| Bisect.Bisection.DoFindBisection | src/git-2.55.0/bisect.c:281-398 | every weight it reads is right, and the commit it returns is a good choice, but for at most as many commits without a weight as there are TREESAME merges, each of which is counted like a tree-changing commit |
| Bisect.GoodTestIsNearBest | src/git-2.55.0/bisect.c:110-140 | a good choice maximises the distance below 2048 commits, and is within a 2048th of it above |
| Bisect.ReverseInteresting | src/git-2.55.0/bisect.c:410-430 | the list is reversed and thinned to interesting commits, and the tree-changing ones are counted |
| Bisect.FindBisection | src/git-2.55.0/bisect.c:400-451 | returns a good commit to test, what it reaches, and how many there are; with TREESAME merges it may miss a better one for each |
| Bisect.OctopusRun | src/git-2.55.0/bisect.c:281-398 | one TREESAME merge is enough: three roots, a child and a merge of them; the child is halfway but never weighed, and a root is returned |
| Bisect.CandidatesAre | src/git-2.55.0/bisect.c:1082-1084 | the candidates are the ancestors of the bad commit that no good commit reaches |
| Bisect.CandidateListIsComplete | src/git-2.55.0/bisect.c:1082-1084 | a list of the candidates is one that the search accepts |
| Bisect.BadIsExtreme | src/git-2.55.0/bisect.c:1082-1129 | only the bad commit reaches all candidates |
| Bisect.BadIsTestedLast | src/git-2.55.0/bisect.c:1115-1129 | it is proposed exactly when nothing else is left |
| Bisect.TestedBad | src/git-2.55.0/bisect.c:1044-1129 | a bad answer keeps the first bad commit and leaves strictly fewer candidates |
| Bisect.TestedGood | src/git-2.55.0/bisect.c:1044-1129 | so does a good answer |
| Bisect.SessionFindsFirstBad | src/git-2.55.0/bisect.c:1044-1129 | every session ends at the first bad commit, whatever good choices are made |
| Bisect.FindFirstBad | src/git-2.55.0/bisect.c:1044-1129 | so does the session that tests what find_bisection proposes, on any list of the candidates |
| Image.HashLine | src/git-2.55.0/apply.c:304-314 | the 32-bit hash over the characters that are not white space, and its 24 bits that a table entry keeps |
| Image.Img.AddLine | src/git-2.55.0/apply.c:316-323 | extends the table by one line |
| Image.Img.Prepare | src/git-2.55.0/apply.c:330-352 | cuts the bytes into lines and fills the table in step with them |
| Image.Img.RemoveFirstLine | src/git-2.55.0/apply.c:354-360 | drops a line from the bytes and from the table alike |
| Image.Img.RemoveLastLine | src/git-2.55.0/apply.c:362-367 | the same at the end |
| Image.LinesAreUnique | src/git-2.55.0/apply.c:330-352 | a file is made of its lines in only one way |
| Image.MatchFragment | src/git-2.55.0/apply.c:2597-2671 | the tests of the boundaries, the flags, the hashes and the bytes |
| Image.MatchMeansSameLines | src/git-2.55.0/apply.c:2597-2671 | a match means unpatched, equal lines in the right place; the only exception is a last line without newline, which also matches a longer line that starts with it and hashes alike when the end of the file is not required |
| Image.NewlineIsNotSeen | src/git-2.55.0/apply.c:2597-2671 | a concrete case of that exception: a hunk line "a" without newline matches an image line "a" with one, unless the end of the file is required |
| Image.EqualLinesMatch | src/git-2.55.0/apply.c:2597-2671 | equal unpatched lines in an allowed place do match |
| Image.SearchOutwards | src/git-2.55.0/apply.c:2863-2901 | tries no position twice, each with its byte offset and before all that lie further away, forwards first: those up to the match, or all of them when there is none |
| Image.FindPos | src/git-2.55.0/apply.c:2815-2901 | the nearest matching position from the clamped start, forwards on ties, or -1 exactly when none matches |
| Apply.SidesOfLine | src/git-2.55.0/apply.c:3033-3079 | a line of context is on both sides of a hunk, a removed one on the old and an added one on the new side, the other way round in reverse |
| Apply.ReverseSwapsSides | src/git-2.55.0/apply.c:3002-3085 | read in reverse, the two sides of a hunk change places |
| Apply.ParseBody | src/git-2.55.0/apply.c:1797-1888 | accepts exactly the bodies whose lines are known, count to what the header says and change something; the context counts are those of the ends |
| Apply.BuildImages | src/git-2.55.0/apply.c:3001-3098 | the lines expected and the lines left, in bytes and in table, or failure on an unknown line |
| Apply.ContextOnBothSides | src/git-2.55.0/apply.c:3154-3169 | leading and trailing context is the same on both sides, so dropping it drops the same lines |
| Apply.SplicedBytes | src/git-2.55.0/apply.c:2951-2955 | cutting at summed line lengths cuts between lines |
| Apply.UpdateImage | src/git-2.55.0/apply.c:2908-2973 | lines, table and bytes all change to the spliced ones, new lines marked unless overlap is allowed |
| Apply.DropContext | src/git-2.55.0/apply.c:3154-3169 | drops from the longer side, or from both |
| Apply.Locate | src/git-2.55.0/apply.c:3138-3170 | finds the place and drops no more context than it must: with more context kept at either end, down to the limit of -C, the lines stand nowhere in the file; fails only at that limit; of the places for what is left it takes the nearest |
| Apply.ApplyOneFragment | src/git-2.55.0/apply.c:2980-3228 | failure leaves the image alone and comes only when the lines stand nowhere, with as little context as -C allows; success replaces the lines found by the lines left, equally trimmed and no more than needed; a hunk that fits anywhere whole is applied whole, and nowhere further from where it is expected; as long as no context may be dropped, a hunk without trailing context is applied at the end of the file, and one that starts at line 0 or 1 at its beginning |
| Apply.PositionFits | src/git-2.55.0/apply.c:3134 | the line of the header survives in an int exactly if it is at most INT_MAX + 1 |
| Apply.HunkFits | src/git-2.55.0/apply.c:3111-3144 | a hunk of a well-formed patch fits at the line where the search for it starts, if the result has at most INT_MAX lines |
| Apply.ApplyFragments | src/git-2.55.0/apply.c:3356-3378 | a well-formed patch to a file of at most INT_MAX lines turns the lines of the old file into those of the new one, bytes and table in step, and rejects nothing |
| Apply.ReversePatches | src/git-2.55.0/apply.c:2330-2347 | swaps positions and counts of every hunk in place |
| Apply.ReverseTurnsBack | src/git-2.55.0/apply.c:2330-2347 | the reversed patch, read in reverse, turns the new file into the old one |
| Apply.ApplyAndReverse | src/git-2.55.0/apply.c:3356-3378 | applying a well-formed patch and then its reverse restores the file byte for byte (both files of at most INT_MAX lines) |
| AddPatch.GroupStep | src/git-2.55.0/add-patch.c:728-731 | a further line adds a group exactly when it starts a run of changes |
| AddPatch.ParseDiff | src/git-2.55.0/add-patch.c:620-763 | hunks are what lies between headers, all of it, and each counts its maximal runs of changed lines |
| AddPatch.ParsedIsCounted | src/git-2.55.0/add-patch.c:620-763 | a parsed hunk whose header is right can be split |
| AddPatch.GroupSplit | src/git-2.55.0/add-patch.c:1095-1193 | groups add up over a cut that is not inside one |
| AddPatch.ReadLine | src/git-2.55.0/add-patch.c:1095-1142 | what reading one line does to the counts of the piece at hand |
| AddPatch.InBounds | src/git-2.55.0/add-patch.c:1095-1099 | while pieces are left to make, the buffer is not overrun |
| AddPatch.ClosePiece | src/git-2.55.0/add-patch.c:1144-1193 | a change after context ends a piece whose header is right, and starts one that shares the context |
| AddPatch.LastPiece | src/git-2.55.0/add-patch.c:1195-1208 | what remains of the header counts the lines of the last piece, so no count is off |
| AddPatch.FileDiff.SplitHunk | src/git-2.55.0/add-patch.c:1051-1209 | replaces a hunk by as many pieces as it has groups, one group each, each header placed and counted right, neighbours sharing all context between them; a hunk of fewer than two groups stays |
| ChosenPatch.MergeHunks | src/git-2.55.0/add-patch.c:888-1013 | merges the longest run of chosen hunks that touch by their new offsets |
| ChosenPatch.MergingRestores | src/git-2.55.0/add-patch.c:888-1013 | merging all pieces of a hunk gives back its range and its header |
| ChosenPatch.PiecesTouch | src/git-2.55.0/add-patch.c:913-925 | all pieces of a hunk touch, and are merged again, exactly when the hunk does not start, without context, with lines that are only removed |
| ChosenPatch.SplitStaysVisible | src/git-2.55.0/add-patch.c:888-1209 | splitting keeps all pieces recognisable exactly when the hunk does not start so |
| ChosenPatch.EmittedIsRight | src/git-2.55.0/add-patch.c:1015-1049 | the emitted patch makes the chosen file exactly when chosen pieces are recognisable; otherwise two of its hunks overlap, and there is no file that it makes |
| ChosenPatch.SplitDecides | src/git-2.55.0/add-patch.c:1015-1209 | after a split, the patch for everything makes the other file exactly when the hunk does not start by deleting |
| ChosenPatch.DeletionAtTheTop | src/git-2.55.0/add-patch.c:888-1049 | the hunk that removes "a" and "c" around "b" does: split, it is emitted as two hunks that overlap, which make no file |
| ChosenPatch.TopPatchIsRefused | src/git-2.55.0/add-patch.c:888-1049 | the code of apply.c applies the first of them and finds no place for the second |
| ChosenPatch.SplitKeepsLayout | src/git-2.55.0/add-patch.c:1051-1209 | splitting leaves a set of hunks that still describes both files |
| ChosenPatch.LayoutOfDiff | src/git-2.55.0/add-patch.c:620-763 | the hunks of a diff, apart and with counts that are not zero, describe both files |
| ChosenPatch.ChoosingNone | src/git-2.55.0/add-patch.c:1015-1049 | no choice leaves the file alone |
| ChosenPatch.ChoosingAllMakesNew | src/git-2.55.0/add-patch.c:1015-1049 | choosing everything makes the other file |
| ChosenPatch.RunIsStep | src/git-2.55.0/add-patch.c:791-852 | the hunk written for a run of pieces replaces its lines in the file as it is so far: its shifted offset is exact |
| ChosenPatch.HunkSkipped | src/git-2.55.0/add-patch.c:1029-1031 | a skipped hunk changes later offsets by what it would have added or removed |
| ChosenPatch.TurnsAppend | src/git-2.55.0/add-patch.c:1015-1049 | one more hunk extends what a patch does |
| ChosenPatch.ReassemblePatch | src/git-2.55.0/add-patch.c:1015-1049 | for any choice of hunks and pieces, in either direction, the headers count their lines, and the patch turns the file into the one with the chosen groups replaced and no others, if chosen pieces are recognisable |
| ChosenPatch.ApplyChosen | src/git-2.55.0/add-patch.c:1015-1049 | applying that patch with the code of apply.c produces that file (of at most INT_MAX lines) |
| ChosenPatch.DiffIsReady | src/git-2.55.0/add-patch.c:620-763 | a diff is ready for a session if its hunks have counts that are not zero, lie apart, and do not start by deleting where they can be split |
| ChosenPatch.OpenDiff | src/git-2.55.0/add-patch.c:620-763 | parsing such a diff starts a session |
| ChosenPatch.Split | src/git-2.55.0/add-patch.c:1051-1209 | splitting in a session keeps all that the emitted patch needs |
| ChosenPatch.Choose | src/git-2.55.0/add-patch.c:1015-1049 | so does choosing or skipping a hunk, whatever was split before |
| ChosenPatch.ApplyReady | src/git-2.55.0/add-patch.c:1015-1049 | at any moment of a session, applying the emitted patch changes the chosen groups and nothing else (for a result of at most INT_MAX lines) |
| BundleUri.VisitBundle | src/git-2.55.0/bundle-uri.c:613-656 | what the walk does to one bundle: a failed download marks it, a second visit does not unbundle it again |
| BundleUri.WalkStep | src/git-2.55.0/bundle-uri.c:601-667 | each step keeps all bundles that the walk has left behind marked, and brings it nearer to its end |
| BundleUri.BackAtTheTop | src/git-2.55.0/bundle-uri.c:669-684 | a walk that drops below zero has marked everything down to the deepest bundle visited |
| BundleUri.WalkBundles | src/git-2.55.0/bundle-uri.c:600-667 | the walk ends whatever downloads and unbundles do, and stops only above the list, behind it after a visit to every bundle, at a bundle that is not newer than the configured token, or at one whose download is no bundle; bundles that were not visited are untouched |
| BundleUri.FetchByToken | src/git-2.55.0/bundle-uri.c:540-688 | marked are the bundles that were unbundled and those that could not be downloaded; success means that every bundle down to the deepest visited is marked, some were unbundled, and the stored token is the largest of those and newer than the configured one; it fails exactly when the walk stops in or behind the list, for one of these reasons, and then nothing is stored; when downloads work and each bundle can be unbundled once all older ones are in, it succeeds and stores the newest token |
| BundleUri.AttemptUnbundle | src/git-2.55.0/bundle-uri.c:813-826 | unbundles a downloaded bundle once |
| BundleUri.UnbundleAll | src/git-2.55.0/bundle-uri.c:828-843 | ends when no bundle that is left can be unbundled |
| BundleUri.NoOrderGoesFurther | src/git-2.55.0/bundle-uri.c:828-843 | if more objects never hurt, no other order of unbundling gets further |
| Base85.EnDe | src/git-2.55.0/base85.c:17-38 | the alphabet and the table of digits are inverse |
| Base85.Codec.Prepare | src/git-2.55.0/base85.c:29-38 | the table is filled on first use, with every digit plus one |
| Base85.Encode | src/git-2.55.0/base85.c:79-102 | every group of the text stands for its four bytes, missing ones taken as zero |
| Base85.Digits | src/git-2.55.0/base85.c:92-96 | five digits of any 32-bit number, last one first |
| Base85.Codec.DecodeGroup | src/git-2.55.0/base85.c:46-64 | accepts exactly five characters of the alphabet whose value fits into 32 bits, in 32-bit arithmetic |
| Base85.Unpack | src/git-2.55.0/base85.c:67-72 | rotating shows the bytes from the top |
| Base85.Codec.Decode | src/git-2.55.0/base85.c:40-77 | succeeds exactly when every group can be decoded, and writes their bytes |
| Base85.RoundTrip | src/git-2.55.0/base85.c:40-102 | decoding undoes encoding for every byte string |
| Base85.ValueIsUnique | src/git-2.55.0/base85.c:46-64 | no two groups stand for the same number |
| Base85.LineLength | src/git-2.55.0/apply.c:2075-2095 | the length test of a binary hunk passes exactly when the decoder would use up the whole payload |
| AbsPath.StripLastComponent | src/git-2.55.0/abspath.c:17-30 | removes the last component, and nothing from the root |
| AbsPath.GetNextComponent | src/git-2.55.0/abspath.c:33-51 | takes the first component and shortens what remains |
| AbsPath.CompsJoin | src/git-2.55.0/abspath.c:174-187 | a link target put before what remains puts its components before the others |
| AbsPath.FollowLink | src/git-2.55.0/abspath.c:162-187 | restarts from the directory of the link, or from the root, with its target in front |
| AbsPath.WalkIsCanonical | src/git-2.55.0/abspath.c:110-189 | a result has no empty, "." or ".." component, and no prefix of it is a link |
| AbsPath.CompsLaws | src/git-2.55.0/abspath.c:33-51 | the components of a path are its names, with an empty one for a separator at the end; repeated separators do not count |
| AbsPath.RenderedComps | src/git-2.55.0/abspath.c:33-51 | a canonical path has just the components it was made of |
| AbsPath.LinkLeads | src/git-2.55.0/abspath.c:162-172 | a relative link leads to what its contents lead to from the directory that holds it, an absolute one to what they lead to from the root |
| AbsPath.WalkIsLookup | src/git-2.55.0/abspath.c:110-189 | a path can be resolved exactly when pathname resolution of section 4.13 of the POSIX.1-2017 Base Definitions, which looks up the contents of each link by themselves, succeeds on the same files once these liberties are granted, and then it leads to the same place: files may be entered like directories, an empty link leads to its own directory, and things may be missing, all of them if the caller allows it and otherwise the last one |
| AbsPath.WalkAgreesWithPosix | src/git-2.55.0/abspath.c:110-189 | so where pathname resolution on the files as they are succeeds, the result names the same file |
| AbsPath.WalkLeavesFiles | src/git-2.55.0/abspath.c:117-120 | but ".." also leaves a file, which pathname resolution does not |
| AbsPath.EnterName | src/git-2.55.0/abspath.c:110-183 | a name leads to where the walk goes: on, to the target of a link, or nowhere |
| AbsPath.RealPath | src/git-2.55.0/abspath.c:79-202 | ends on every file system, following at most one link more than the limit, and computes that walk; the result is canonical and free of links; an error leaves nothing |
| AbsPath.ResolvedAgain | src/git-2.55.0/abspath.c:79-202 | resolving a result again gives the same |
| Alias.QuoteCmdline | src/git-2.55.0/alias.c:100-115 | appends every argument in double quotes, with quotes and backslashes escaped and one space between |
| Alias.SplitCmdline | src/git-2.55.0/alias.c:126-180 | writes the arguments over the line, each with its NUL, and returns where they start; a trailing backslash, an open quote and too many arguments fail |
| Alias.SkipBlanks | src/git-2.55.0/alias.c:139-141 | goes past white space and no further |
| Alias.EscapedReads | src/git-2.55.0/alias.c:106-112 | inside double quotes, an escaped argument reads as itself |
| Alias.QuotedReads | src/git-2.55.0/alias.c:100-115 | a quoted line reads as its arguments, whatever follows it |
| Alias.SplitUndoesQuote | src/git-2.55.0/alias.c:100-180 | splitting undoes quoting exactly when there is at least one argument and fewer than an int counts |
| Alias.LineReads | src/git-2.55.0/alias.c:126-180 | however arguments are written, bare, behind backslashes, in single or in double quotes or in a mixture of these, with any white space between, the line means just these arguments; white space at either end stands beside an empty one |
| Alias.QuotedLineSplits | src/git-2.55.0/alias.c:126-180 | so every argument stands, NUL-terminated, where its pointer says in the line written in place |
| Attr.NextDirAgrees | src/git-2.55.0/attr.c:1016-1021 | paths that share a directory share the components up to it |
| Attr.SharedFrames | src/git-2.55.0/attr.c:981-999 | so the frames of a common directory are common |
| Attr.KeptFrames | src/git-2.55.0/attr.c:981-1009 | what is left after popping belongs to the new path, and what it lacks starts where it ends |
| Attr.AttrCheck.Bootstrap | src/git-2.55.0/attr.c:910-948 | the frames below and above those of directories |
| Attr.AttrCheck.PopOthers | src/git-2.55.0/attr.c:981-999 | pops exactly down to the deepest directory that leads to the path |
| Attr.AttrCheck.Prepare | src/git-2.55.0/attr.c:950-1043 | the stack afterwards is a function of the directory alone, whatever was looked up before |
| Attr.FillOneKeeps | src/git-2.55.0/attr.c:1092-1115 | known values stay, the first assignment wins, and every state asked for ends up known |
| Attr.FillOneExpands | src/git-2.55.0/attr.c:1092-1115 | macros are expanded all the way, cyclic ones included |
| Attr.FillOneInvents | src/git-2.55.0/attr.c:1092-1115 | a value that appears comes from a state of the line or of a macro that was expanded |
| Attr.LastStateCounts | src/git-2.55.0/attr.c:1082-1115 | without macros the last state for an attribute wins, the queue being taken from its end |
| Attr.FillOneLoop | src/git-2.55.0/attr.c:1092-1115 | ends for any macros, and what remains is always the number of unknown attributes |
| Attr.Fill | src/git-2.55.0/attr.c:1117-1136 | lines from the top of the stack down, the last line of a file first; stopping early changes nothing |
| Attr.DetermineMacros | src/git-2.55.0/attr.c:1143-1158 | each attribute gets the highest definition of its macro |
| Attr.DirLength | src/git-2.55.0/attr.c:1173-1184 | the directory ends at the last slash that something follows |
| Attr.CollectSomeAttrs | src/git-2.55.0/attr.c:1165-1192 | the attributes of a path do not depend on earlier lookups |
| Attr.FramesForLines | src/git-2.55.0/attr.c:924-1043 | the stack holds the lines of builtin, system, home, root, deeper directories and info, those of a directory read as ones for what is below it, in that order |
| Attr.AttributesAreOneLine | src/git-2.55.0/attr.c:1117-1158 | a path gets what one line would give it that had the states of all these lines that match the path, with the last definition of each macro |
| Attr.LastLineCounts | src/git-2.55.0/attr.c:1092-1136 | so an attribute that no macro sets has the value of the last of these lines that matches the path and sets it, and none if there is no such line |
| CacheTree.NameCmpIsOrder | src/git-2.55.0/cache-tree.c:49-57 | shorter names first, then bytes: a strict order |
| CacheTree.SubtreePos | src/git-2.55.0/cache-tree.c:59-79 | the index of a name, or where it belongs |
| CacheTree.FindOrCreate | src/git-2.55.0/cache-tree.c:81-105 | a missing name is inserted where the order wants it |
| CacheTreeFormat.ParseInt | src/git-2.55.0/cache-tree.c:552-580 | reads back any number as it was printed, and stops at the character after it |
| CacheTreeFormat.WriteOne | src/git-2.55.0/cache-tree.c:505-543 | writes the tree exactly when all names, here and below, are in order |
| CacheTreeFormat.ReadHead | src/git-2.55.0/cache-tree.c:583-619 | reads back name, counts and hash |
| CacheTreeFormat.ReadOne | src/git-2.55.0/cache-tree.c:583-659 | whatever it reads is in order, and it reads back a tree that was written, using exactly its bytes |
| CacheTreeFormat.RoundTrip | src/git-2.55.0/cache-tree.c:505-659 | writing and reading gives the tree, hashes of invalid nodes aside |
| CacheTreeUpdate.Between | src/git-2.55.0/cache-tree.c:311-325 | entries of one directory stand next to each other in the index |
| CacheTreeUpdate.RegionOf | src/git-2.55.0/cache-tree.c:311-350 | a run of entries below a directory is all of them |
| CacheTreeUpdate.DoInvalidatePath | src/git-2.55.0/cache-tree.c:113-157 | after an edit of the index at the path, every node still marked valid is right; the nodes of the directories that lead to the path are not valid any more, the one of the path is gone, and all others are as they were |
| CacheTreeUpdate.UpdateSubtrees | src/git-2.55.0/cache-tree.c:299-350 | the first loop makes the node of every subdirectory exact |
| CacheTreeUpdate.DiscardUnused | src/git-2.55.0/cache-tree.c:219-234 | keeps exactly the subtrees that are in use, in order |
| CacheTreeUpdate.CollectItems | src/git-2.55.0/cache-tree.c:354-446 | the second loop lists exactly the entries of the tree object |
| CacheTreeUpdate.UpdateOne | src/git-2.55.0/cache-tree.c:257-473 | from any tree whose valid nodes are right, the node and all nodes below become what the index says |
| CacheTreeUpdate.ExactIsUnique | src/git-2.55.0/cache-tree.c:257-473 | there is only one such tree |
| CacheTreeUpdate.Update | src/git-2.55.0/cache-tree.c:475-503 | updating any tree whose valid nodes are right gives the tree that the index says |
| CacheTreeUpdate.EditsThenUpdate | src/git-2.55.0/cache-tree.c:113-503 | after any number of edits, each followed by invalidating its path, the update gives node for node what starting from an empty tree gives |
| CacheTreeUpdate.ValidWithoutIta | src/git-2.55.0/cache-tree.c:422-436 | after an update every node, at any depth, is valid exactly when no intent-to-add entry lies below it |
| CacheTreeRead.ItemsRead | src/git-2.55.0/cache-tree.c:354-446 | reading a tree object back, with the objects below it, gives the entries of its directory that are more than intended, with modes and hashes, in order, if no two objects have the same hash |
| CacheTreeRead.IndexRead | src/git-2.55.0/cache-tree.c:475-503 | so after an update the objects below the root hold the index, but for entries that are only intended |

## Left out

- Object database, refs, index files, child processes, prompts, colours and messages: input and output; where an answer matters it is a parameter.
- Similarity quality in the fuzzy matcher: a score is the shared byte pairs scaled by distance, as in the code, but only order, bounds and matching at all are claimed. Hash-map storage of fingerprints is a multiset.
- BlameMatch.FuzzyFindMatchingLines: asks for a table of similarities whose size is an `int`, and for files of at most 1023 MiB, as `xdi_diff` does.
- blame.c: `ignore_diffs`, `split_overlap`, `split_blame`, `blame_coalesce` and reference counts are not modelled; a source line is never negative and ends below `INT_MAX`.
- combine-diff.c: deleted results, the flags that ignore white space, choosing which hunks to show and printing.
- Combine.Combiner.ShowPatchDiff: at most 64 parents; with more, the shifts of `unsigned long` are not defined either.
- Combine.Combiner.ConsumeDiff: the text of a diff line is taken from an edit script instead of being parsed.
- bisect.c: skipped commits (`FIND_BISECTION_ALL`, `best_bisection_sorted`, `managed_skipped`) are not modelled.
- Bisect.FindFirstBad: the walk that lists the candidates is a function of the bad and the good commits.
- Bisect.SessionFindsFirstBad: not for first-parent mode, where a good commit excludes other commits than those it reaches.
- apply.c: white-space fixing, three-way merges, `--inaccurate-eof`, binary patches other than their line test, and header parsing.
- Image.FindPos: line numbers within a file are not cut to an `int`; what is said of whole patches is said of results of at most `INT_MAX` lines.
- Apply.ApplyOneFragment: asks for a hunk that changes something, as parsing guarantees; `--recount` lets others through.
- add-patch.c: edited hunks (and so the branch of `merge_hunks` that uses scratch space), mode changes, coloured text, "\ No newline" lines and carriage returns. Byte offsets into the diff are line numbers.
- AddPatch.ParseDiff: starts at the first hunk header, whose numbers are a function of its text.
- ChosenPatch.LayoutOfDiff: asks for hunks with counts that are not zero and at least one line between them.
- bundle-uri.c: sorting, nested bundle lists and the recursion depth. A list whose first bundle is already marked as unbundled would not move on, so the list is fresh, as the caller makes it.
- abspath.c: drive letters and the choice of dying on errors; characters after a NUL.
- attr.c: reading and parsing attribute files, and pattern matching, which are functions here; the number of known attributes is fixed.
- cache-tree.c: `CE_REMOVE`, sparse directories, repair and promisor paths, and `verify_cache`. Trees are values that methods return changed, so that sharing between trees is not modelled; `used` and `count` of subtrees are local to the update.
- CacheTreeUpdate.UpdateOne: computes hashes without writing objects; names in the index do not end with a slash.
- CacheTreeFormat.ParseInt: does not model overflow of `int`.
- alias.c: looking up and listing aliases.
- bloom.c, archive-tar.c: they would only add easier members.
