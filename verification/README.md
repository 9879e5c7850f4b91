# Verified model of the document pipeline's algorithms

A Dafny model of the self-contained algorithms behind a retrieval system for PDF
documents, with proofs of what they promise. `dafny verify dfyconfig.toml` checks it.

| part | files |
|---|---|
| sections of a document: outline forest, page ranges, chunks, records | `Levels`, `SectionForest`, `Outline`, `OutlinePaths`, `Text`, `SplitText`, `ChunkGroups`, `TextChunks`, `SectionRecords`, `RecordIds`, `RecordTree`, `FrontMatter` |
| image-asset manifest edited in batches by many workers | `AssetStore`, `AssetRuns`, `AssetEdits` |
| registry of PDF documents and its snapshot cache | `PdfRegistry`, `RegistryEntries`, `RegistryRuns`, `SnapshotCache` |
| stream splitting and prompt budget | `ThinkTags`, `ThinkStreams`, `ContextBudget` |
| bounded cache, rate limiter, search over several stores | `BoundedLru`, `RateLimiter`, `MergedSearch` |
| configuration editor | `TomlEditor`, `TomlReading`, `TomlSurvival`, `TomlArrays` |
| OCR scoring | `EditDistance` |
| shared | `Basics`, `Options` |

Code that changes things step by step is modelled as methods with loops and as classes
with fields; each method is proved to compute a specification function, and what the
source promises is proved about that function, over all inputs and whole runs. What such a
function gives is also stated without it, in terms of the inputs: which bookmark an outline
entry is (`OutlinePaths`), what the chunks of a text are (`TextChunks`), which section a
record comes from and hangs under (`RecordTree`), what stands under an asset's or a file's
key (`AssetEdits`, `RegistryEntries`), entry by entry for the caches.

The clock, lock outcomes, row order, digests, text normalisation, the page texts and the
results of single stores are parameters. Assumptions stand in the `requires` clauses:
times that do not run back in the order in which the limiter's lock is taken (`Monotone`;
the limiter reads the clock before it takes the lock, so `SkewedWindowBound` allows times
out of order by a given skew), digests without collisions and without NUL
(`Collisionless`), asset ids that name their source and workers with documents of their
own (`Acts`, `Sound`), distinct TOML headers where a standard table is read and not only
edited (`DistinctNames`), stores that return their k best rows (`Returns`).

Where code and promise differ, the model follows the code and a lemma gives the exact
condition:

- Stream chunking is visible when a chunk ends in a complete tag right after text that
  could start one, because the held-back part is taken from the last event. Safe chunks
  are exactly those that agree however the stream stops and goes on
  (`ThinkTags.ChunkingInvisibleExactlyWhenSafe`); a given stream agrees exactly when all
  text held back across a tag settles (`ThinkStreams.AgreesExactlyWhenSettled`), and two
  mistakes can cancel out (`ThinkStreams.CrossedTwice`).
- Leading whitespace can make the budget search return nothing
  (`ContextBudget.LongestExactlyWhen`).
- An outline of a document without pages gives ranges that end on page 1
  (`Outline.RangeInsideDocument`).
- A key of a section that continues into an array of tables is written into the array
  (`TomlReading.UpdatedReadsBack`). If the array has the key, its setting is overwritten
  (`TomlArrays.ArraySettingOverwritten`; exactly which lines change:
  `TomlArrays.LineChangesExactlyWhen`; exactly when the array reads as before:
  `TomlArrays.SectionArrayKeptExactlyWhen`, `TomlArrays.ArrayReadsAsBeforeExactlyWhen`).
- Stripping a contents list drops prose above it (`FrontMatter.PreambleLost`).
- The one-active rule holds in every interleaving of reads and commits exactly when no
  commit clashes with what was written since its read
  (`RegistryRuns.OneActiveExactlyWithoutClash`); two ingests of one new path clash
  (`RegistryRuns.OverlapBreaksOneActive`).
- A job touches another job's entry only by superseding it, except that registering a
  file replaces its entry and interrupting a source annotates it, whatever job they are of
  (`RegistryRuns.OnlySupersededExactlyWhen`).
- A forced upload whose job fails comes back as the entry it replaced exactly when, once
  the whole report has been marked, no other active document has its path, or it had been
  superseded already; its coming back can supersede another document (`RegistryRuns.ForcedFailureRestores`, with an input for each of the two:
  `ForcedFailureSupersedesItself`, `ForcedFailureSupersedesAnother`).
- With `setdefault`, caches of different sizes can hit with different values: exactly
  when one stores a value in the smaller cache while the larger holds another
  (`BoundedLru.SameHitsExactlyWithoutForks`).
- Requests that take the limiter's lock out of the order of their times can exceed the
  limit in a window (`RateLimiter.SkewExceedsLimit`), but not in one shorter by the skew
  (`RateLimiter.SkewedWindowBound`).
- The retry hint is right for a fixed limit; after the limit was lowered it can be too
  short (`RateLimiter.RetryAdmittedExactlyWhen`).

## Model

| member | source | states |
|---|---|---|
| EditDistance.Levenshtein | scripts/eval_ocr.py:152-165 | The early exits and the two-row loop return the full recursive edit distance of the two strings. |
| EditDistance.LeastScript | scripts/eval_ocr.py:152-165 | That distance is the length of a shortest script of insertions, deletions and substitutions turning a into b: one such script exists and none is shorter. |
| EditDistance.NoScriptIsShorter | scripts/eval_ocr.py:159-164 | No edit script that turns a into b has fewer edits than the distance. |
| EditDistance.SomeScriptIsAsShort | scripts/eval_ocr.py:159-164 | For any two strings a script of exactly that length can be produced. |
| EditDistance.ZeroIffEqual | scripts/eval_ocr.py:153-154 | The distance is zero exactly for equal strings. |
| EditDistance.Symmetric | scripts/eval_ocr.py:152-165 | The distance is the same in both directions. |
| EditDistance.BetweenLengths | scripts/eval_ocr.py:155-158 | The distance is at least the difference of the lengths and at most the longer length. |
| EditDistance.Triangle | scripts/eval_ocr.py:152-165 | The triangle inequality holds for any three strings. |
| EditDistance.Cer | scripts/eval_ocr.py:168-172 | Under any normalisation the character error rate is 0 exactly when the two texts normalise to the same; else it is the distance over the length of the normalised reference, or 1 if that is empty. |
| ThinkTags.Tags.SplitThinkTagEvents | src/local_rag.py:606-631 | The scanning loop yields the events and the final mode of the recursive splitter. |
| ThinkTags.SplitMeansRead | src/local_rag.py:606-631 | The labels the events give to the characters, and the final mode, are those of a reader that goes through the text one character at a time and never looks for a tag ahead. |
| ThinkTags.OneThought | src/local_rag.py:606-631 | Text, opening tag, text, closing tag, text: three events, the middle one thinking and the others answer, with exactly these texts. |
| ThinkTags.HeldIsPartial | src/local_rag.py:591-603 | What is held back is a suffix of the text and a proper beginning of one of the tags, or nothing. |
| ThinkTags.NoLongerPartial | src/local_rag.py:591-603 | No longer suffix could be the beginning of a tag. |
| ThinkTags.Tags.StreamEvents | src/local_rag_classes/local_query_engine.py:1213-1262 | The consumer's loop over chunks, with its carry, ends in the state and the events of the specified stream. |
| ThinkTags.LastPiece | src/local_rag_classes/local_query_engine.py:1224-1262 | Feeding one more piece and releasing gives the labels and mode of everything fed with that piece in one go. |
| ThinkTags.ChunkingInvisibleExactlyWhenSafe | src/local_rag_classes/local_query_engine.py:1224-1262 | However the stream stops and whatever comes last, the labels and mode equal one pass over the joined text, if and only if every chunk is safe: it does not end in a complete tag right after text whose end could start a tag. |
| ThinkTags.UnsafeStreamDisagrees | src/local_rag_classes/local_query_engine.py:1234-1245 | Right after the first unsafe chunk of any stream there is a continuation that is labelled wrongly. |
| ThinkTags.BracketCrossesTag | src/local_rag_classes/local_query_engine.py:1234-1245 | For any well-formed tags the chunks '<' + opening tag, then '<', are read differently from their concatenation. |
| ThinkTags.ThinkBracketCrossesTag | src/local_rag.py:587-588 | The tags in use are well-formed, so the two chunks '<<think>' and '<' go wrong. |
| ThinkStreams.AgreesExactlyWhenSettled | src/local_rag_classes/local_query_engine.py:1213-1262 | A given stream's labels and mode equal one pass over its whole text if and only if text held back across a tag is never taken for the beginning of a tag and always released, or kept to the end, with the labels of the side it came from. |
| ThinkStreams.LengthBound | src/local_rag_classes/local_query_engine.py:1224-1262 | However a text is cut into chunks, the stream never yields more characters than one pass over it. |
| ThinkStreams.CompletedDiffers | src/local_rag_classes/local_query_engine.py:1228-1231 | Once text held back across a tag has been taken for the beginning of another, no further chunks make the stream agree again. |
| ThinkStreams.CrossedTwice | src/local_rag_classes/local_query_engine.py:1234-1245 | '<' + opening tag, closing tag, '<': wrong if it stops after two chunks, right after three, although the first chunk is unsafe. |
| Levels.ParentFacts | src/sectioning.py:562-567 | The parent is the nearest earlier entry of smaller level. |
| Levels.NextFacts | src/sectioning.py:576-582 | The successor is the first later entry of equal or smaller level. |
| Levels.DescendantsAreInterval | src/sectioning.py:570-574 | The descendants of an entry by parent links are exactly the entries strictly between it and its successor: the two stack passes describe one tree. |
| Levels.KidsAreSiblings | src/sectioning.py:562-567 | The children by parent links are the heads of the consecutive subtrees between an entry and its successor. |
| SectionForest.LinkSections | src/sectioning.py:549-568 | The left-to-right stack gives every node its parent's id and its child list, in document order, with at most as many pops as entries. |
| SectionForest.NextSections | src/sectioning.py:575-582 | The right-to-left monotonic stack stores every node's successor, or -1 without one, with at most as many pops as nodes; the table-of-contents pass at 622-632 is the same loop. |
| SectionForest.AssignPages | src/sectioning.py:584-593 | Page ends and repeated-page titles are set from the successors, and the links stay as they were. |
| SectionForest.ForestRepresented | src/sectioning.py:562-568 | The linked nodes of any block of the outline stand, recursively through their child lists, for one tree value. |
| SectionForest.PreorderIsOutline | src/sectioning.py:549-568 | Listing the forest parents first gives back the entries, each once and in order. |
| SectionForest.FlattenSections | src/sectioning.py:951-956 | Flattening linked nodes gives the nodes of the preorder of the forest they stand for. |
| Outline.Walk | src/sectioning.py:530-544 | The recursive walk over nested outline items, skipping untitled ones, yields the flattened entries; which they are is said by OutlinePaths.FlatFollows. |
| Outline.OutlineSections | src/sectioning.py:527-594 | The whole pipeline returns freshly made roots that stand for the forest of the flattened entries; what its sections say is said by OutlinePaths.SectionSays, ParentSays and OutlineHangs. |
| OutlinePaths.FlatFollows | src/sectioning.py:530-544 | The entries are those of the titled bookmarks, one for every path of indices into the outline that ends in one, in lexicographic order of the paths: with the title, a level equal to the number of lists around it, and as start the page number + 1 if the document has that page, else the nearest it has, and page 1 if unreadable. |
| OutlinePaths.SectionSays | src/sectioning.py:584-593 | A section ends on the page before the first later entry of equal or smaller level, but not before its own start; without such an entry on the last page. It notes that entry's title exactly if it starts on the same page. |
| OutlinePaths.ParentSays | src/sectioning.py:562-567 | A section's parent id is that of the nearest earlier entry of smaller level, and empty without one. |
| OutlinePaths.OutlineHangs | src/sectioning.py:562-568 | Throughout the tree every section stands in the list of the section it names as parent, which is of smaller level; the roots name none. |
| Outline.FlatIds | src/sectioning.py:554-554 | Every entry carries the id minted for its number in the outline. |
| Outline.FlatIsClamped | src/sectioning.py:543-543 | Every entry starts on a page from 1 to the page count (page 1 of an empty document). |
| Outline.RangeInsideDocument | src/sectioning.py:584-593 | 1 <= start <= end for every node; the end is at most the page count exactly when there is a page at all. |
| Outline.RootsCover | src/sectioning.py:584-593 | Every page from a root's start to the last page lies in the range of that root or a later one. |
| Outline.NoPageLost | src/sectioning.py:584-593 | Root ranges leave no page uncovered from the first entry's start to the last page. |
| Outline.DescendantRange | src/sectioning.py:584-593 | With non-decreasing starts a descendant ends at most one page past its ancestor, and inside it exactly when the ancestor has no successor, or the descendant starts before the successor's page, or the ancestor starts on it. |
| SplitText.Split | src/sectioning.py:844-874 | The loop over paragraphs with its running length, and the window loop, return the chunks of the specification for every size and overlap, and terminate even when the overlap is not smaller than the size; what those chunks are is said by TextChunks.ChunksExactly. |
| SplitText.CutWindows | src/sectioning.py:860-866 | The window loop produces the windows of the specification and stops at the end of the paragraph; TextChunks.CutAreWindows gives them in closed form. |
| TextChunks.ChunksExactly | src/sectioning.py:844-874 | The text is cut at longest runs of whitespace that start and end with a line break of their own, no piece holding the start of one; the pieces that are not blank, stripped, are grouped so that each group fits and the next paragraph would not have; group by group the chunks are the paragraphs joined with blank lines or, of a paragraph over the limit, the windows that are not blank: with step = max(1, max_chars - overlap), window k is the stripped slice of max_chars characters from k * step on, and the last is the first to reach the end. |
| TextChunks.CutAreWindows | src/sectioning.py:860-866 | The window loop started anywhere in a paragraph gives the rest of it in windows that begin every max(1, max_chars - overlap) characters. |
| TextChunks.WindowNumber | src/sectioning.py:860-866 | There are 1 + ceil((length - max_chars) / step) windows of a paragraph of at least max_chars characters. |
| TextChunks.PiecesDivide | src/sectioning.py:845-845 | The pieces are the spans between leftmost longest paragraph breaks, which together with the breaks make up the text. |
| TextChunks.GreedyIsFull | src/sectioning.py:868-873 | The first paragraph of every group would not have fitted into the group before it. |
| SplitText.JoinedStep | src/sectioning.py:850-855 | One more paragraph joins a group behind a blank line, and stands alone in a new one. |
| SplitText.ChunksBounded | src/sectioning.py:844-874 | No chunk is longer than max_chars. |
| SplitText.NothingLost | src/sectioning.py:844-874 | With any overlap the non-whitespace characters of the chunks are windows of those of the text that start no later than the last one ended and reach the end. |
| SplitText.LosslessWithoutOverlap | src/sectioning.py:844-874 | Without overlap the chunks with whitespace removed concatenate to the text with whitespace removed. |
| ChunkGroups.FewestGroups | src/sectioning.py:868-873 | A run of short paragraphs becomes consecutive groups whose joined length fits, and no grouping that fits has fewer. |
| ChunkGroups.FewestChunks | src/sectioning.py:844-874 | The chunks of any text are what some grouping of its paragraphs writes out to, and no grouping into consecutive groups that fit, long paragraphs by themselves, writes out to fewer. |
| SplitText.RunsAreIndependent | src/sectioning.py:858-867 | A long paragraph separates runs: what comes before it, its windows and what follows are packed independently. |
| Text.InkOfStrip | src/sectioning.py:845-845 | Stripping removes whitespace only. |
| Text.StripIs | src/sectioning.py:845-845 | What stripping leaves starts and ends with a character that is not whitespace, or is empty, and only whitespace stood around it. |
| SectionRecords.RecordsForSection | src/sectioning.py:232-384 | The recursive method over linked nodes returns the records of the tree they stand for, chunks numbered on from the given counter; what those records are is said by RecordTree.RecordsAccounts. |
| SectionRecords.BuildSectionRecords | src/sectioning.py:157-211 | The document loop returns the document record followed by the records of every top section, the chunk counter threaded through; what those records are is said by RecordTree.DocumentAccounts. |
| RecordTree.RecordsAccounts | src/sectioning.py:232-384 | The records of a forest are, each once and in document order, the summary of every section of level 0 or 1 or with children, and every chunk of a section, unless a boilerplate heading stands on the way to it. A chunk is cut from the text of a leaf, or from what stands before the first child's heading; its parent is the summary of its own section if that has one, else of the nearest section around it that has one, else the root above. A summary's parent is that of the nearest section properly around it. Ids are digests of the NUL-joined parts. |
| RecordTree.DocumentAccounts | src/sectioning.py:157-211 | A document's first record is its own, under no parent; the rest are those of its sections, with the document as the root. |
| RecordTree.NumberIs | src/sectioning.py:191-210 | A chunk's index is the size of the set of chunk records before it; a summary's is -1. |
| RecordTree.StrIs | src/sectioning.py:314-314 | The offset in an id is written in decimal digits without leading zeros, with the offset's value. |
| SectionRecords.DocumentNumbered | src/sectioning.py:191-210 | In a document chunk_index is the number of chunks before the record, hence 0, 1, 2, ..., and -1 on summaries. |
| SectionRecords.EarlierParent | src/sectioning.py:264-290 | Every record after the first names as parent the id of a summary record before it. |
| RecordIds.RecordsPieces | src/sectioning.py:251-252 | Apart from parents and numbers, the records are what each visible section gives by itself, in document order: nothing from a boilerplate subtree, everything from every other section. |
| RecordIds.JoinNulInjective | src/sectioning.py:981-983 | Joining with NUL keeps apart any two lists of NUL-free parts. |
| RecordIds.MintInjective | src/sectioning.py:981-983 | Without digest collisions, equal record ids come from the same section and the same place in it, decimal offsets included. |
| RecordIds.DocumentDistinct | src/sectioning.py:157-384 | Given distinct section ids and no digest collision, no two records of a document share an id. |
| RecordIds.OutlineIds | src/sectioning.py:554-554 | The ids of outline entries differ whatever their titles hold. |
| RecordIds.OutlineDocumentDistinct | src/sectioning.py:157-384 | For every PDF outline the records of the document cut along it have pairwise distinct ids. |
| FrontMatter.StripFrontMatter | src/sectioning.py:731-779 | The scan returns the end of a contents block if there is one, and otherwise strips nothing. |
| FrontMatter.BlockMeans | src/sectioning.py:731-779 | A contents block stretches to line s exactly if some line before s is numbered, no prose follows the first such line before s, their numbers never go back, and then either line s has a smaller number than one before it or s comes right after the last numbered line of at least two. |
| FrontMatter.BlockUnique | src/sectioning.py:731-779 | A text has at most one contents block, so the result is determined. |
| FrontMatter.DroppedProse | src/sectioning.py:731-779 | A prose line is dropped only if it comes before the first numbered line. |
| FrontMatter.PreambleLost | src/sectioning.py:731-779 | Stripping loses prose exactly when the text has prose before its first numbered line. |
| FrontMatter.TitleDropped | src/sectioning.py:731-779 | A title above two contents entries is dropped with them, although the comment speaks of keeping the preamble. |
| AssetStore.ImageAssetStore.BeginBatch | src/asset_store.py:132-142 | The fields become those of the specified step: an open batch is one deeper, a kept one is taken up again, and else the batch and its base are the file. |
| AssetStore.ImageAssetStore.CommitBatch | src/asset_store.py:144-192 | Fields and file become those of the specified step: an inner commit is one less deep, an outermost one merges the batch three ways into the file and closes it, or, without the lock, raises and keeps the batch. |
| AssetStore.ImageAssetStore.AbortBatch | src/asset_store.py:194-198 | The fields are reset and the file stays. |
| AssetStore.ImageAssetStore.SaveImage | src/asset_store.py:200-255 | A save is the specified compute step followed by the specified write step. Afterwards the id has the name, page, description, source and digest saved, with the creation time of the entry before it if that had one, and every other entry is as before: in the batch, or in the file if the lock is obtained, else the call raises and nothing changes. |
| AssetStore.ImageAssetStore.RemoveSourceAssets | src/asset_store.py:337-378 | Of the batch, or of the file under the lock, exactly the entries of other sources stay, unchanged; the number of those that go is returned. Without a source, or if the lock cannot be obtained, nothing changes. |
| AssetStore.MergesThreeWays | src/asset_store.py:159-184 | Id by id the flush takes what the batch has where the batch differs from its base, and what the file has elsewhere. |
| AssetRuns.FlushOntoBase | src/asset_store.py:144-184 | A commit with no intervening writer leaves exactly the batch's own manifest. |
| AssetRuns.OwnStep | src/asset_store.py:132-255 | A worker's step acts on its own part of the manifest as if nothing else existed. |
| AssetRuns.ForeignStep | src/asset_store.py:132-255 | No step of another worker changes a worker's part. |
| AssetRuns.Independent | src/asset_store.py:132-255 | In every interleaving a worker's memory and its part of the manifest are those of its own steps run alone. |
| AssetRuns.InterleavingIrrelevant | src/asset_store.py:132-255 | Runs in which every worker takes the same steps leave the same manifest, however interleaved. |
| AssetRuns.Serializable | src/asset_store.py:144-192 | Any interleaving of begins, saves, removals, commits, failures and aborts leaves the manifest of running the workers one after another. |
| AssetRuns.Unbatched | src/asset_store.py:241-255 | Without a batch a series of saves and removals reaches the file one by one. |
| AssetRuns.NoEditLost | src/asset_store.py:144-192 | In any series of begins, edits, commits and failed commits every accepted edit is either in the file or still held by the batch, in order. |
| AssetRuns.BatchIsEdits | src/asset_store.py:132-192 | Any series of batches, nested or not, with failed flushes anywhere and edits before and after them, comes, once no batch is kept, to its accepted edits applied one by one. |
| AssetRuns.BatchLikeUnbatched | src/asset_store.py:132-192 | Batching is invisible: the accepted edits of any such series, made without a batch, leave the same manifest and the same memory. |
| AssetRuns.RetryKeepsAll | src/asset_store.py:185-192 | A failed commit followed by a new begin restores the state exactly. |
| AssetRuns.NestedBatch | src/asset_store.py:132-158 | A batch inside an open batch adds its edits to the outer one and writes nothing, even if its commit could not get the lock. |
| AssetRuns.WrittenSoFar | src/asset_store.py:132-255 | In every interleaving, also between the two halves of its last save, a worker's part of the manifest is exactly its written edits, as its own history determines them, applied to what that part was. |
| AssetRuns.CommittedBatches | src/asset_store.py:132-192 | Once a worker keeps no batch, in any interleaving, its part of the manifest is all its accepted edits applied, whatever history of batches, failures and retries it had. |
| AssetRuns.WrittenOneAfterAnother | src/asset_store.py:144-192 | In every interleaving, discarded batches and half-done saves included, the manifest is the workers' written edits applied whole, one worker after another. |
| AssetRuns.AtEveryMoment | src/asset_store.py:132-255 | At every moment of every interleaving, wherever each worker stands in its history, the manifest is the edits written by then, applied one worker after another. |
| AssetRuns.BatchesOneAfterAnother | src/asset_store.py:144-192 | Once no worker keeps a batch, the manifest is the accepted edits of all histories applied one worker after another. |
| AssetEdits.EditsLeave | src/asset_store.py:200-378 | Whatever the edits, under an id stands its last save since its source was last removed, with the first creation time since then that is not empty, or nothing if there is none. |
| AssetEdits.EveryEntry | src/asset_store.py:132-378 | At every moment of every interleaving each id of the manifest has what its own worker's written edits leave there. |
| AssetEdits.EveryEntryAccepted | src/asset_store.py:132-378 | Once a worker keeps no batch, each of its ids has what all its accepted edits leave there. |
| AssetEdits.RemovedStaysRemoved | src/asset_store.py:337-378 | If a removal of a source is accepted and no save of it later, then once no batch is kept no entry of the source is in the manifest, in every interleaving. |
| AssetEdits.SavedStays | src/asset_store.py:200-255 | If a save is accepted, with no save of its id and no removal of its source later, then once no batch is kept its entry is in the manifest, everything as saved but an earlier creation time, in every interleaving. |
| BoundedLru.BoundedLRU.Create | src/caches.py:43-48 | A size below one is refused; otherwise the cache is empty and valid. |
| BoundedLru.BoundedLRU.GetItem | src/caches.py:61-65 | A hit returns the value and becomes most recent; a miss changes nothing. |
| BoundedLru.BoundedLRU.SetItem | src/caches.py:67-75 | The entry becomes most recent under its new value; only the oldest entries go, and only over capacity. |
| BoundedLru.BoundedLRU.DelItem | src/caches.py:81-83 | The key is gone; a missing key is reported and changes nothing. |
| BoundedLru.BoundedLRU.Get | src/caches.py:101-112 | As reading, with the default on a miss. |
| BoundedLru.BoundedLRU.Pop | src/caches.py:114-124 | The key is gone and its value, or the default, is returned. |
| BoundedLru.BoundedLRU.Clear | src/caches.py:126-128 | No entry is left. |
| BoundedLru.BoundedLRU.SetDefault | src/caches.py:142-149 | A hit returns and refreshes the old value, a miss stores the default. |
| BoundedLru.BoundedLRU.EvictIfNeeded | src/caches.py:54-57 | The loop leaves the newest maxsize entries. |
| BoundedLru.HitDoes | src/caches.py:50-149 | What every operation does when its key stands at a place: reading and setting a default return that value and move the entry to the end, storing moves it under the new value, removing takes it out; all other entries stay in order. |
| BoundedLru.MissDoes | src/caches.py:50-149 | And when the key is missing: reading and removing change nothing and give the default or an error, storing adds the entry last and drops the first one if the cache was full. |
| BoundedLru.StepValid | src/caches.py:50-149 | Every operation keeps keys distinct and the size at most maxsize. |
| BoundedLru.StepIncluded | src/caches.py:50-149 | Each operation made on both caches keeps the smaller one's keys a subsequence of the larger one's, and the surplus within the extra room. |
| BoundedLru.Inclusion | src/caches.py:50-149 | LRU inclusion over every series of operations on caches of m <= n entries. |
| BoundedLru.HitStaysHit | src/caches.py:50-149 | Growing the cache never turns a hit into a miss. |
| BoundedLru.HitIsLastStored | src/caches.py:61-75 | Every hit returns the value last stored under its key and not removed since. |
| BoundedLru.SameHitsExactlyWithoutForks | src/caches.py:50-149 | All along a run every hit of the smaller cache has the same value in the larger, if and only if no setdefault of the run stores a value in the smaller cache while the larger holds another under that key. |
| BoundedLru.PlainSameHit | src/caches.py:61-75 | Without setdefault a hit in the smaller cache has the same value in the larger. |
| BoundedLru.SetDefaultDiffers | src/caches.py:142-149 | With setdefault the two caches can hit with different values. |
| PdfRegistry.Registry.CommitChanged | src/pdf_registry.py:439-457 | The rows take exactly the difference of the snapshots, and the version rises by one exactly when the snapshots differ. |
| PdfRegistry.Registry.RegisterQueued | src/pdf_registry.py:250-284 | After registering any files, under every key stands what stood there before if no file has it, else the queued entry of the last file that has, with that file's name and paths, the job, the options and both times; it keeps what stood there just before that file exactly if the key is forced. |
| PdfRegistry.RegistersAll | src/pdf_registry.py:250-284 | The same of the specification, for every file list, repeated hashes included, and every key. |
| RegistryEntries.RegistersExactly | src/pdf_registry.py:250-284 | A key is in the table afterwards exactly if it was before or a file has it, and its entry keeps a previous one exactly if the key is forced and it was in the table before or an earlier file has it. |
| PdfRegistry.Registry.MarkJobStatus | src/pdf_registry.py:286-357 | The table becomes the job's own entries marked, then superseded, for any row order. |
| RegistryEntries.MarksFollow | src/pdf_registry.py:286-354 | A report changes a key's entry file by file: only a file of that hash does, and only while the entry is the job's own, as ReportsOne says. |
| RegistryEntries.ReportsOne | src/pdf_registry.py:297-354 | Field by field what a reported file does to its entry: an interruption or a failure brings the replaced entry back with notes; an interruption without one sets the status, an active entry stays active when its job fails; any other report sets exactly the status, the paths that are not empty and the error, and an entry that turns active forgets the one it replaced. |
| PdfRegistry.Registry.MarkSourcesInterrupted | src/pdf_registry.py:359-393 | Under every key named the entry keeps all but its notes and update time and takes the notes of the interruption; a key not in the table gets a blank entry with them, and all other keys are as before. |
| PdfRegistry.InterruptsAll | src/pdf_registry.py:359-393 | The same of the specification, for every list of sources, repeated and empty ones included. |
| PdfRegistry.Registry.DeleteSource | src/pdf_registry.py:395-409 | The entry is gone and returned, and every other entry is as before; an empty hash deletes nothing. |
| PdfRegistry.SupersedeSameProcessedPaths | src/pdf_registry.py:412-436 | The two loops mark exactly the documents whose path belongs to another active document. |
| PdfRegistry.CommitIsRewrite | src/pdf_registry.py:439-457 | The commit leaves the table as a full rewrite would exactly when the table agrees with the snapshot on everything the operation left alone. |
| PdfRegistry.CommitKeepsOthers | src/pdf_registry.py:439-457 | What another process wrote survives wherever the operation changed nothing. |
| PdfRegistry.SupersedeMakesOneActive | src/pdf_registry.py:412-436 | From any table superseding leaves at most one active document a path. |
| PdfRegistry.SupersedeKeepsWinner | src/pdf_registry.py:412-436 | A path with an active document keeps one, untouched. |
| PdfRegistry.RunsKeepOneActive | src/pdf_registry.py:250-436 | From an empty registry no series of operations ever leaves two ingested or indexed entries of one non-empty path. |
| RegistryRuns.BeatenExactlyByRivals | src/pdf_registry.py:412-436 | An entry is superseded exactly when another active document has its path, and comes later in row order if the entry is active itself. |
| RegistryRuns.OthersOnlySuperseded | src/pdf_registry.py:286-357 | A job's report touches another job's entry exactly when another active document has its path, and then only marks it superseded. |
| RegistryRuns.InterruptAnnotatesNamed | src/pdf_registry.py:359-393 | Interrupting sources changes exactly the entries named, of any job, and in them only the notes and the update time. |
| RegistryRuns.RegisterReplacesNamed | src/pdf_registry.py:250-284 | Registering changes another job's entry exactly when one of the files has its hash, and then replaces it by a queued entry of the registering job. |
| RegistryRuns.OnlySupersededExactlyWhen | src/pdf_registry.py:250-409 | For all four operations: another job's entry is left alone but for superseding, if and only if the operation is a report, or registers no file of its hash, or interrupts sources not naming it (or naming it again with the same notes), or deletes another source. |
| RegistryRuns.RestoresPrevious | src/pdf_registry.py:303-342 | Whatever else a report of failure or interruption lists, a forced upload in it is marked as the entry it replaced, with notes; it may be listed again if that entry is another job's. |
| RegistryRuns.ForcedFailureRestores | src/pdf_registry.py:286-357 | In a report of any files, a forced upload that fails or is interrupted is left as the entry it replaced, with notes, if and only if that entry has no rival in the table as marked by the whole report or had been superseded already; every entry, reported or not, is superseded exactly when it has a rival there, and else is as marked. |
| RegistryRuns.ForcedFailureOfOne | src/pdf_registry.py:286-357 | In a report of one file every other entry is superseded exactly when it has a rival, else unchanged. |
| RegistryRuns.ForcedFailureSupersedesAnother | src/pdf_registry.py:275-357 | A document queued by another job under the path of an ingested one is superseded when the ingested one is forced and fails. |
| RegistryRuns.ForcedFailureSupersedesItself | src/pdf_registry.py:275-357 | If another document is ingested under the path between the forced upload and its failure, the restored entry is superseded in the same call. |
| RegistryRuns.CommitKeepsOneActiveExactlyWhen | src/pdf_registry.py:412-457 | A commit onto a table others have written to since leaves at most one active document a path if and only if no document it turns active has the path of an active document it left alone. |
| RegistryRuns.AloneNeverClashes | src/pdf_registry.py:439-457 | A commit onto the table it was computed from never clashes. |
| RegistryRuns.OneActiveExactlyWithoutClash | src/pdf_registry.py:250-457 | In any interleaving of the reads and commits of any processes, no moment has two active documents of one path if and only if no commit clashes. |
| RegistryRuns.OverlapBreaksOneActive | src/pdf_registry.py:412-457 | Two processes that both read before either writes, each ingesting its document under one new path, leave two active documents of it. |
| SnapshotCache.PayloadCache.Get | src/pdf_registry.py:161-166 | A payload is answered exactly when the entry under the key has the version asked for. |
| SnapshotCache.PayloadCache.Put | src/pdf_registry.py:169-173 | The entry is replaced in place or added last, and only the oldest go, above the limit. |
| SnapshotCache.PayloadCache.Pop | src/pdf_registry.py:213-214 | The key's entry is dropped and the others keep their order. |
| SnapshotCache.AnsweredAt | src/pdf_registry.py:161-166 | The first entry of the key decides: its payload if it is of the version asked for, else nothing. |
| SnapshotCache.PutAt | src/pdf_registry.py:169-173 | The first entry of the key is replaced in place; without one the new entry is last, and a full cache loses its first. |
| SnapshotCache.RunsLimited | src/pdf_registry.py:169-173 | In every run no cache ever holds more than 64 entries. |
| SnapshotCache.LoadFills | src/pdf_registry.py:176-191 | A load that no write comes between returns the current rows and leaves them where the next load of the process finds them. |
| SnapshotCache.StepKeeps | src/pdf_registry.py:176-214 | Every step of every reader and writer keeps each cached payload equal to rows its store held at or after its version. |
| SnapshotCache.HitIsCurrent | src/pdf_registry.py:176-191 | In every interleaving what a cache answers for the current version is exactly the store's current rows. |
| SnapshotCache.LoadReturnsHeldRows | src/pdf_registry.py:176-191 | Every finished load has returned rows the store held at some moment since it read the version, and the current ones if nothing was written since. |
| SnapshotCache.SilentWriteGoesStale | src/pdf_registry.py:135-139 | Were rows replaced without a new version, a cached entry of that version would be answered although stale. |
| TomlEditor.ParseFlattens | scripts/setup_instance.py:95-105 | Cutting a file into its sections loses no line. |
| TomlEditor.SectionRanges | scripts/setup_instance.py:96-105 | The scan stores for every section name the lines from the header to the end of the body, of the last section of that name. |
| TomlEditor.LastOfName | scripts/setup_instance.py:103-105 | Of several sections of one name the one looked up, and so edited, is the last. |
| TomlEditor.ShiftOk | scripts/setup_instance.py:133-136 | Shifting by the number of insertions keeps every stored range right. |
| TomlEditor.AppendedRanges | scripts/setup_instance.py:108-116 | Appending a section, with its separator line, keeps every stored range right. |
| TomlEditor.UpdateTomlSections | scripts/setup_instance.py:86-142 | For every file, repeated headers included, the index-based editing in place gives the file in which the lines of every updated section (the last of its name) are edited on their own, and new sections follow, blank lines at the end trimmed. |
| TomlReading.UpdatedReadsBack | scripts/setup_instance.py:118-132 | With distinct headers, an updated key reads back its new value exactly when its line lands in its section (no array-of-tables header before it) or the section had that value already. |
| TomlReading.OthersReadAsBefore | scripts/setup_instance.py:95-136 | Every key of a standard table that is not updated reads as before. |
| TomlReading.ArrayTakesTheKey | scripts/setup_instance.py:39-39 | A key set in a section that goes on into an array of tables is not read back: such headers are not seen. |
| TomlSurvival.RootReadsAsBefore | scripts/setup_instance.py:95-136 | Every key before the first section reads as before. |
| TomlSurvival.EveryLineSurvives | scripts/setup_instance.py:95-142 | Up to the blank lines at the end of the file every line, blank or not, survives in order: as it was or, if its key is updated in the section the editor takes it to be in (an array of tables inside that section included), with the new value. |
| TomlSurvival.OtherLinesSurvive | scripts/setup_instance.py:95-142 | Every line survives unchanged and in order but blank ones and those with a key updated in the section the editor takes them to be in, arrays of tables inside it included; among them the file gains only the headers of new sections. |
| TomlArrays.EditAllBecame | scripts/setup_instance.py:107-136 | Every section's lines become those its own update makes of them, only the last section of a name being edited, and the sections added hold nothing but their keys. |
| TomlArrays.EditLines | scripts/setup_instance.py:118-132 | An edited section's lines are the old ones with the last line of every key that is set replaced, followed by a line for each key set that it did not have. |
| TomlSurvival.NewSectionComesLast | scripts/setup_instance.py:108-116 | A section that is updated but not there is added at the end: after a blank line, unless the file is empty or ends with one, its header and one line for each value, in order. |
| TomlSurvival.StripBlankIs | scripts/setup_instance.py:143-143 | Blank lines at the end of the file go, all of them and nothing else. |
| TomlArrays.LineChangesExactlyWhen | scripts/setup_instance.py:107-142 | A line of the file changes if and only if it is the last line of its key in the last section of its name, arrays of tables inside it included, and the update sets that key to another value. |
| TomlArrays.SectionArrayKeptExactlyWhen | scripts/setup_instance.py:118-132 | The part of an array of tables inside a section reads a key as before if and only if the section's update does not write that key after the array's header, or writes the value it had. |
| TomlArrays.ArrayReadsAsBeforeExactlyWhen | scripts/setup_instance.py:86-142 | Over the whole file the last value of a key in an array of tables is as before if and only if the last section that has the key there, or gets it, is not given it by the update, or is given that value. |
| TomlArrays.ArraySettingOverwritten | scripts/setup_instance.py:118-130 | Setting a.k overwrites the k of an array of tables [[b]] that stands in section a. |
| RateLimiter.Limiter.CheckRequest | src/api_key_auth.py:821-844 | The bucket, the verdict and the hint are those of the specified check, and no other identity's bucket changes; without a limit every request passes and nothing is recorded; the hint is zero exactly for a request that passes. |
| RateLimiter.BucketIs | src/api_key_auth.py:831-844 | A check drops the times out of the window, keeps the others and adds its own exactly if it passes, which it does exactly if fewer than the limit are kept. |
| RateLimiter.HintIsLeast | src/api_key_auth.py:842-844 | The hint is the least whole number of seconds, at least one, that is longer than the oldest time counted stays in the window. |
| RateLimiter.AdmittedExactlyBelowLimit | src/api_key_auth.py:834-844 | A request is admitted exactly when fewer than the limit were admitted in the window that ends with it, for any limits over the run. |
| RateLimiter.SkewedWindowBound | src/api_key_auth.py:821-844 | With a fixed limit and times out of order by at most a skew, no window shorter by the skew ever holds more admissions than the limit. |
| RateLimiter.WindowBound | src/api_key_auth.py:821-844 | With a fixed limit and times in the order of the lock, no window of the limiter's length ever holds more admissions than the limit. |
| RateLimiter.SkewExceedsLimit | src/api_key_auth.py:831-841 | A request that takes the lock before one with an earlier time lets a window of the full length hold more than the limit. |
| RateLimiter.RetrySucceeds | src/api_key_auth.py:842-844 | A refused request that comes back after the hinted wait, with no admission in between, is admitted. |
| RateLimiter.RetryAdmittedExactlyWhen | src/api_key_auth.py:834-844 | With any limits a later check is admitted exactly when all but limit - 1 of the requests in the bucket have aged out. |
| RateLimiter.LoweredLimitHintTooShort | src/api_key_auth.py:842-844 | If the limit is lowered in between, the hint can be too short. |
| MergedSearch.Search | src/vector_store.py:179-207 | The nested loops and the sort give the ranking of the merged rows, rows without an id skipped. |
| MergedSearch.TaggedFollows | src/vector_store.py:181-202 | What is merged is every row with an id, store by store in the order the stores give them, each once, with its id and score and the label and weight of its store. |
| MergedSearch.EqualScoresInOrder | src/vector_store.py:179-207 | Rows of equal score stand in the order in which their ids first come. |
| MergedSearch.SearchResult | src/vector_store.py:179-207 | The result is in descending order, holds every returned id exactly once, and holds it with the first of its best copies. |
| MergedSearch.RankingIsStable | src/vector_store.py:203-207 | Rows of equal score keep their order. |
| MergedSearch.TopScores | src/vector_store.py:179-207 | If each store returns its k best rows with distinct ids, the first k scores are those of searching everything the stores hold, duplicates across stores counted once at their best. |
| ContextBudget.FitTextToContextBudget | src/local_rag.py:776-801 | The tokens returned never exceed the budget; a text that fits comes back unchanged; below 96 tokens nothing does; and the search's result is the longest cut exactly when its first probe at or below the cut is past the leading whitespace, else nothing. |
| ContextBudget.CandidateIs | src/local_rag.py:789-793 | A cut block is the text up to its last character before the cut that is not whitespace, with the notice, and empty without such a character. |
| ContextBudget.TokensAre | src/local_rag.py:750-751 | The tokens are the least number that four characters each hold the text. |
| ContextBudget.FitsBetween | src/local_rag.py:786-800 | Exactly the prefixes longer than the leading whitespace and up to the cut fit: the searched predicate fails below and above. |
| ContextBudget.LongestExactlyWhen | src/local_rag.py:776-801 | The result is the longest right-stripped prefix with its notice that fits exactly when none fits or the first probe at or below the cut is past the leading whitespace. |
| ContextBudget.FewSpacesLongest | src/local_rag.py:776-801 | A text with at most 41 leading whitespace characters, in particular none, always gets its longest cut, and it is not empty. |
| ContextBudget.SpacesLoseTheText | src/local_rag.py:776-801 | Sixty-five spaces before as many letters come back empty at 96 tokens although 85 characters would fit. |

## Left out

- The word error rate, which reuses the same distance, and the wording of the normalisation, which is a parameter of `Cer`.
- Regular expressions, Unicode case and JSON text: lines enter as kinds (blank, numbered, marker, prose; header, key, other), titles as cleaned strings.
- Table-of-contents and Markdown headings: they are linked by the same two stack loops as outline entries; their parsing, and page ranges that are not clamped, are not modelled.
- SectionRecords.RecordsForSection: does not model summaries' wording, tags, section paths, pages and the prefix of chunk contents, which follow from the section alone; its page text, trimmed to its headings, is a parameter of `Context`.
- SectionRecords.BuildSectionRecords: does not model the same fields of its records, nor the list of titles in the document's summary.
- Python's None for a missing page end: outline nodes always get one, so the field is an integer.
- FrontMatter.StripFrontMatter: does not model the whitespace trimmed from the first and last line kept.
- AssetStore.ImageAssetStore.SaveImage: does not model the image file, its path and its digest; the id and the time enter as part of the entry.
- AssetStore.ImageAssetStore.RemoveSourceAssets: does not model entries without a valid path, which the source removes but does not count, and leaves in the file if it counts none.
- Manifest entries that are not objects, other top-level manifest fields, and the process's cache of the parsed manifest, which is taken to be what is on disk.
- The import of the registry's legacy JSON file.
- The source map kept beside the registry: the same rows, version and cache as the registry's documents.
- BoundedLRU membership, length, iteration and listing: they read the entries and change nothing.
- TomlEditor.UpdateTomlSections: does not model quoted or dotted keys, multi-line values, escaping of values, trailing blanks inside the last line, or backup and replacement of the file.
- Reading single elements of an array of tables: what is read is the last value of a key in the whole array, or in its part inside one section.
- Floating point: times, scores and rates are real numbers without rounding.
- Threads inside one process: every locked operation is one atomic step.
- Networks, model calls, PDF and OCR libraries, embeddings, the web interface, configuration, logging, key and category management.
