# Verification of the XGENy adapters

This project models five connected parts of XGENy in Dafny and proves properties of them: the
exact-edit patch engine with its atomic file commit, the bounded directory queries with their output
verifier, the path grammar with containment and argument resolution, the model profile collection
with its locking protocol, and the chunked readers with the driver loop. `dafny verify dfyconfig.toml`
checks all of it.

Text is a sequence of bytes; a Rust `str` is one that satisfies `Utf8.Valid`. Files follow the source:

- `Patch`, `PatchFile`: the edit engine. Its specification is one left-to-right pass, `Patch.Rewrite`,
  that never looks at the order of the edits.
- `AtomicCommit`, `CommitRecovery`, `CommitProcedure`: the commit as a step machine shared by any
  number of committers, what a crash leaves, and the procedure itself, proved to be a run of the machine.
- `Paths`, `AllowPath`: the path grammar and component containment.
- `QueryText`, `QuerySearch`, `QueryOutput`, `QueryOperations`, `QueryListing`: matches in text, the
  search over a directory tree given as a function (so it may be cyclic), canonical sizes and the
  verifier, and the two operations end to end.
- `QueryAcceptance`, `QueryDeterminism`: exactly what the verifier accepts, and that the order of listings
  does not matter.
- `JsonPointer`, `Resolution`, `ResolutionLaws`: pointers, the derivation, and its laws.
- `Profiles`, `ProfileStorage`, `ProfileProtocol`: the collection class and its meaning as a map, the
  stored form, and processes that lock, load, change and save.
- `Capture`, `LineReader`, `Driver`: stream capture and process results, line input, the driver loop.
- `Scalars`, `CanonicalJson`: UTF-8 and canonical JSON written out, against which the tests on bytes and the
  sizes are proved.
- `Limits`, `Wrappers`, `Utf8`, `Sorting`, `Json`: what the others share.

The operating system is modelled by classes whose methods may answer anything their contract allows
(`CommitProcedure.Parent`, `Capture.Pipe`, `LineReader.BufReader`, `Driver.Ports`), so a theorem about a
method holds for every chunking, failure and reply. The hash is a function parameter that is injective
where a property needs it; the JSON serializer is a parameter whose sizes follow section 3.2 of RFC 8785.

Some properties one might expect do not hold, and the project says exactly when they do:

- The commit is not a compare-and-swap: another rename may fall between the second look and the
  rename (`CommitRecovery.NotCompareAndSwap`, `CommitRecovery.WhatARenameReplaces`).
- A temporary can stay behind: exactly when setting its permissions or its last removal fails
  (`AtomicCommit.LeftBehindIff`, `CommitRecovery.OrphanWitness`).
- Resources and normalised arguments can disagree when a selector pointer has a bare tilde
  (`ResolutionLaws.MalformedPointersDisagree`). They agree exactly under `ResolutionLaws.Consistent`,
  which the workspace resolver alone always meets and the resolver of the command line does not.
- Storing a profile whose timeout is below one second makes the profile file unreadable
  (`ProfileProtocol.SetupReadableIff`), since the stored timeout is truncated to 0. The command line
  builds timeouts from whole seconds (`ProfileProtocol.CommandLineIsWhole`), so such a profile reaches
  the store only through the public constructors.
- `ProfileStoreUnavailable` and `ProfileCommitUnknown` do not say whether the command was saved
  (`ProfileProtocol.UnavailableSaysNothing`, `ProfileProtocol.CommitUnknownSaysNothing`). It was exactly
  when the process ended at or after a stage that took effect (`ProfileProtocol.EffectIff`).
- A preview does not contain a match of more than 512 bytes inside a line, and slicing it can panic
  (`QueryText.BoundedPreview`, `QueryText.LongMatchPanics`). Queries have at most 256 bytes.
- What the input thread reads is not always what the loop is given: exactly the lines that end in two
  carriage returns, and a last line without a newline that ends in one or has the greatest length
  (`LineReader.RelayIff`, `LineReader.LostLines`).

## Model

| member | source | states |
|---|---|---|
| `Patch.UniqueRangeExact` | crates/xgeny-adapter-filesystem/src/apply_patch.rs:487-497 | for valid UTF-8 and a non-empty needle the three results are exclusive and exact: missing iff it occurs nowhere, ambiguous iff it occurs at two byte offsets (overlaps counted), and otherwise the one occurrence, on character boundaries |
| `Utf8.OccurrenceAtBoundary` | crates/xgeny-adapter-filesystem/src/apply_patch.rs:487-497 | UTF-8 is self-synchronising (section 3 of RFC 3629): a non-empty string occurs in a string only at character boundaries |
| `Patch.NextOccurrence` | crates/xgeny-adapter-filesystem/src/apply_patch.rs:489-493 | no later occurrence starts inside the first character of the first one, so restarting at the next character misses nothing |
| `Patch.AdjacentSuffices` | crates/xgeny-adapter-filesystem/src/apply_patch.rs:456-462 | sorted ranges that pass the adjacent-pair test are pairwise disjoint |
| `Patch.ClashIffNotSeparate` | crates/xgeny-adapter-filesystem/src/apply_patch.rs:456-462 | the adjacent-pair test fails exactly when an edit is repeated or two edits overlap anywhere in the source |
| `Patch.RewriteTailSize` | crates/xgeny-adapter-filesystem/src/apply_patch.rs:463-479 | the rewritten tail has exactly the source size minus removed plus inserted bytes, and removed never exceeds the source, so `checked_sub` cannot underflow |
| `Patch.SpliceAtBoundaries` | crates/xgeny-adapter-filesystem/src/apply_patch.rs:480-484 | right-to-left replacement never cuts a character of the partly changed result |
| `Patch.ResolveEdits` | crates/xgeny-adapter-filesystem/src/apply_patch.rs:450-455 | resolves exactly when every old text occurs once; the error is that of the first edit that does not |
| `Patch.Splice` | crates/xgeny-adapter-filesystem/src/apply_patch.rs:480-484 | the splice loop computes the left-to-right simultaneous substitution |
| `Patch.ApplyExactEdits` | crates/xgeny-adapter-filesystem/src/apply_patch.rs:450-485 | succeeds iff the multiset of edits is applicable; the result is the simultaneous substitution, valid UTF-8, of length source minus removed plus inserted and at most 64 KiB; each error has its exact condition, none of which looks at the order of the edits |
| `Patch.TotalsPermute` | crates/xgeny-adapter-filesystem/src/apply_patch.rs:463-479 | the removed and inserted totals do not depend on the order of the edits |
| `PatchFile.ApplyPatchToFile` | crates/xgeny-adapter-filesystem/src/apply_patch.rs:422-448 | with no other writer, success leaves exactly the substitution of the text whose digest was expected; each error says what was wrong with the file (digest, edits) or where the commit failed; a failure with a known outcome leaves the file as it was; other names are untouched |
| `AllowPath.ParsePatchArguments` | crates/xgeny-adapter-filesystem/src/apply_patch.rs:316-379 | the argument parser accepts exactly the described shape and returns its path, its digest and edit by edit its texts, which are what the engine asks for |
| `AtomicCommit.StepKeepsInv` | crates/xgeny-adapter-filesystem/src/atomic_commit.rs:49-109 | every step of any committer, with any failure, keeps: temporaries of running committers are distinct and hold what their owner wrote, other names follow the log of renames, reports agree with the log |
| `AtomicCommit.TargetIsWholeContent` | crates/xgeny-adapter-filesystem/src/atomic_commit.rs:49-109 | in every interleaving with failures anywhere a target holds its initial node or the complete content of a committer that renamed |
| `AtomicCommit.ReportIsHonest` | crates/xgeny-adapter-filesystem/src/atomic_commit.rs:41-46 | `Ok(false)` or a failure whose outcome is known means no rename, `Ok(true)` means one, and no committer renames twice |
| `AtomicCommit.LeftBehindIff` | crates/xgeny-adapter-filesystem/src/atomic_commit.rs:65-109 | over every run whose committers are all done: a temporary that was not there before is in the directory iff some committer failed to set its permissions or to remove it |
| `AtomicCommit.StepLeaves` | crates/xgeny-adapter-filesystem/src/atomic_commit.rs:65-109 | for every step: a temporary nobody holds stays, a held one is let go of without being removed exactly in those two cases, and a new one is held |
| `CommitRecovery.OrphanWitness` | crates/xgeny-adapter-filesystem/src/atomic_commit.rs:65-70 | from any directory with an existing target that is as expected and not as desired, and a free name, there is a run that ends in `WriteTemporary` and leaves the temporary behind |
| `AtomicCommit.OrphanPersists` | crates/xgeny-adapter-filesystem/src/atomic_commit.rs:65-75 | a temporary that nobody holds is never touched again in any run |
| `CommitRecovery.WhatARenameReplaces` | crates/xgeny-adapter-filesystem/src/atomic_commit.rs:78-96 | if no rename fell between the second look and the rename, what is replaced is what was expected: no target, or a file whose content has the expected digest and is not yet as desired; otherwise it is the content of the last such rename, whatever was expected |
| `CommitRecovery.NotCompareAndSwap` | crates/xgeny-adapter-filesystem/src/atomic_commit.rs:78-99 | a run, for any two contents, in which both committers expected the same old content and both return `Ok(true)`: the commit is not a compare-and-swap |
| `CommitRecovery.EveryCommitEnds` | crates/xgeny-adapter-filesystem/src/atomic_commit.rs:49-109 | in every interleaving, with any failures, a committer is done after at most 17 turns of its own and one per byte of content |
| `CommitRecovery.CreationFailsIff` | crates/xgeny-adapter-filesystem/src/atomic_commit.rs:201-223 | an undisturbed lone run fails with `CreateTemporary` iff the target is as expected and not yet as desired and all eight names it draws exist |
| `CommitRecovery.RerunExists` | crates/xgeny-adapter-filesystem/src/atomic_commit.rs:49-109 | an undisturbed run of any length exists from every directory, for any name to draw |
| `CommitRecovery.CrashRecovery` | crates/xgeny-adapter-filesystem/src/atomic_commit.rs:56-108 | stop a lone commit at any step after any failures and re-run it undisturbed: with enough turns it ends; unless it has work and all eight drawn names exist, it is `Ok` with the desired content if the original target was absent as expected, had the expected digest, or already was desired, and otherwise `Conflict` with the target untouched |
| `CommitRecovery.AloneTarget` | crates/xgeny-adapter-filesystem/src/atomic_commit.rs:49-109 | a lone committer renames only over a target that is absent as expected, or a file with the expected digest, and not yet as desired; until then the target is untouched; without failures those two facts alone decide between `Ok(false)`, `Ok(true)` and `Conflict` |
| `CommitProcedure.CreateFresh` | crates/xgeny-adapter-filesystem/src/atomic_commit.rs:201-223 | at most eight attempts; success is a new empty file under a temporary name |
| `CommitProcedure.FillTemporary` | crates/xgeny-adapter-filesystem/src/atomic_commit.rs:71-75 | partial writes are continued until the whole content is in the temporary, or the call fails |
| `CommitProcedure.CommitAtomic` | crates/xgeny-adapter-filesystem/src/atomic_commit.rs:49-109 | the procedure, call by call, is a run of the step machine; each result says what the target was and is: `Ok(false)` that it already had the desired digest, `Conflict` that it had not and was not as expected, `Ok(true)` and every error from the temporary on that it was absent as expected or had the expected digest; a new target has the desired content and the permissions of the old one |
| `AtomicCommit.InspectMeans` | crates/xgeny-adapter-filesystem/src/atomic_commit.rs:139-184 | what an observation and the two tests on it say of the directory: inspection fails iff the target is neither absent nor a file within the bound, the precondition holds iff the target is absent as expected or a file with the expected digest |
| `AtomicCommit.OkIsSeen` | crates/xgeny-adapter-filesystem/src/atomic_commit.rs:57-108 | in every interleaving `Ok(true)` is reported right after seeing the desired digest in the last check, `Ok(false)` after seeing it in one of the two looks |
| `Paths.JoinSplit` | crates/xgeny-adapter-filesystem/src/path.rs:54-60 | joining the components of a string gives the string back |
| `Paths.SplitJoin` | crates/xgeny-adapter-filesystem/src/path.rs:111-127 | splitting joined slash-free components gives the components back |
| `Paths.ValidateRelative` | crates/xgeny-adapter-filesystem/src/path.rs:111-127 | accepts exactly at most 4096 bytes in at most 256 components of the grammar, and returns them; otherwise the error is that of the size, of a leading slash or backslash, or of the first component that is too many or not in the grammar |
| `Paths.ComponentErrorMeans` | crates/xgeny-adapter-filesystem/src/path.rs:129-152 | a component is accepted iff it has 1 to 255 bytes, is not `.` or `..`, neither begins with a space nor ends with a space or a dot, holds no C0, DEL or C1 control and none of the eight reserved characters, and names no device; it leads outside iff it is `..` or only holds a forbidden character |
| `Paths.DeviceIff` | crates/xgeny-adapter-filesystem/src/path.rs:154-178 | the device test holds iff the component is a spelling of a reserved name (case, dotless i), then spaces, then nothing or an extension |
| `Paths.ParentLeadsOutside` | crates/xgeny-adapter-filesystem/src/path.rs:111-135 | a path whose first bad component is `..` is refused as leading outside, relative or canonical |
| `Paths.CanonicalIff` | crates/xgeny-adapter-filesystem/src/path.rs:69-87 | a resource canonicalises to a path iff it is one of the two ways to write that path |
| `Paths.RelativeIffWellFormed` | crates/xgeny-adapter-filesystem/src/path.rs:111-152 | a relative string is accepted with components p iff p is well formed and the string is its printed form |
| `Paths.ParseIffPrinted` | crates/xgeny-adapter-filesystem/src/path.rs:89-105 | `parse_canonical` succeeds with p iff the resource is the printed form of p |
| `Paths.ParseIffFixpoint` | crates/xgeny-adapter-filesystem/src/path.rs:69-105 | the strings `parse_canonical` accepts are exactly the fixed points of `canonical_resource` |
| `Paths.CanonicalIsIdempotent` | crates/xgeny-adapter-filesystem/src/path.rs:69-87 | canonicalising twice is canonicalising once, and the result parses |
| `Paths.DisplayRoundTrip` | crates/xgeny-adapter-filesystem/src/path.rs:54-87 | canonicalising the display of a parsed path gives the original resource |
| `Paths.PathRoundTrip` | crates/xgeny-adapter-filesystem/src/path.rs:54-105 | every well-formed path displays to a string that canonicalises and parses back to it |
| `Paths.DisplayIsInjective` | crates/xgeny-adapter-filesystem/src/path.rs:54-60 | different paths display differently |
| `Paths.OneWorkspace` | crates/xgeny-adapter-filesystem/src/path.rs:89-109 | no resource parses under two workspace ids |
| `Paths.JoinStaysInside` | crates/xgeny-adapter-filesystem/src/path.rs:39-52 | `join` of a slash-free name succeeds iff the longer path is in the grammar and its bounds |
| `AllowPath.ContainmentIsComponentwise` | crates/xgeny-cli/src/allow_path.rs:249-254 | for canonical resources of one workspace the string test holds iff the components of the directory are a prefix of those of the resource |
| `AllowPath.AuthorizedIffInside` | crates/xgeny-cli/src/allow_path.rs:134-161 | a canonical resource is authorised for a capability iff its path lies component-wise under an allowed directory or, for reading and stat, it is an allowed file; its path has no `..` |
| `AllowPath.MaterialIsInside` | crates/xgeny-cli/src/allow_path.rs:86-132 | authorised argument material whose path parses names a well-formed path without `..` under an allowed directory or, for reading and stat, an allowed file |
| `AllowPath.MaterialIff` | crates/xgeny-cli/src/allow_path.rs:86-132 | material is authorised iff its arguments are exactly the members of the operation in their shapes, and nothing else, with an authorised path |
| `AllowPath.DigestIff` | crates/xgeny-cli/src/allow_path.rs:319-329 | the digest test accepts exactly `sha256:` and 64 characters of `0123456789abcdef` |
| `AllowPath.EntryIff` | crates/xgeny-cli/src/allow_path.rs:231-242 | an entry is accepted iff it is one of the two ways to write a path, and for a file not that of the root |
| `AllowPath.CanonicalSet` | crates/xgeny-cli/src/allow_path.rs:222-245 | succeeds iff at most 64 entries canonicalise to different resources; returns exactly them; otherwise the error of the first entry that fails |
| `AllowPath.NewAuthorization` | crates/xgeny-cli/src/allow_path.rs:33-76 | succeeds iff both lists can be collected, there is a directory, at most 64 entries in all and none in both; returns the two canonical sets; otherwise the error of the files, then of the directories, then of the sets together |
| `AllowPath.ValidPatchShape` | crates/xgeny-cli/src/allow_path.rs:275-317 | accepts exactly the patch shape: 1 to 32 edits, non-empty differing texts, bounded total |
| `AllowPath.CollectEdits` | crates/xgeny-adapter-filesystem/src/apply_patch.rs:344-372 | the accumulating loop accepts exactly when every edit has its shape and the total is bounded, and returns the edits in order |
| `QueryText.BoundedPreview` | crates/xgeny-adapter-filesystem/src/query.rs:796-822 | for every match: the slice panics iff the match is longer than 512 bytes, does not start the line and its last 512 bytes begin inside a character; otherwise the preview is cut at boundaries and contains the match iff it is at most 512 bytes long or starts the line; for at most 506 bytes it fits the limit and the fallback loop is never entered |
| `QueryText.LongMatchPanics` | crates/xgeny-adapter-filesystem/src/query.rs:812-821 | a line and a match of 513 bytes for which the slice panics; no accepted query is that long |
| `Utf8.BoundaryIffValidCut` | crates/xgeny-adapter-filesystem/src/query.rs:803-813 | a character boundary is exactly a place where text can be cut into text |
| `QueryText.PreviewIsText` | crates/xgeny-adapter-filesystem/src/query.rs:796-822 | a preview is valid UTF-8, at most 512 bytes, and the match occurs in it |
| `QueryText.OffsetsAreGreedy` | crates/xgeny-adapter-filesystem/src/query.rs:775-777 | an occurrence is reported iff no reported occurrence to its left overlaps it |
| `Scalars.QueryIff` | crates/xgeny-adapter-filesystem/src/query.rs:508-523 | a query is accepted iff it is the UTF-8 of 1 to 64 scalar values without control characters in at most 256 bytes |
| `Scalars.EncodedIsValid` | crates/xgeny-adapter-filesystem/src/query.rs:762-765 | every sequence of scalar values encodes (section 3 of RFC 3629) to valid text of as many characters |
| `Scalars.ValidIsEncoded` | crates/xgeny-adapter-filesystem/src/query.rs:762-765 | every valid text is the encoding of scalar values |
| `Scalars.ControlIff` | crates/xgeny-adapter-filesystem/src/path.rs:142-147 | the test on bytes finds a control character iff some scalar value is one |
| `QueryText.StripReturn` | crates/xgeny-adapter-filesystem/src/query.rs:776-776 | a carriage return at the end of a line goes, exactly one, and nothing else |
| `QueryText.LinesMatchesExact` | crates/xgeny-adapter-filesystem/src/query.rs:769-794 | a match is reported for a file iff some line has an unoverlapped occurrence with that line number, character column and preview |
| `QueryText.LinesMatchesInOrder` | crates/xgeny-adapter-filesystem/src/query.rs:769-794 | matches of one file come in strictly increasing line and column order, with line, column and preview in bounds |
| `QueryText.FileMatchBounds` | crates/xgeny-adapter-filesystem/src/query.rs:781-783 | line and column never exceed the file size plus one, so their conversions cannot fail |
| `QuerySearch.SearchState.CollectMatches` | crates/xgeny-adapter-filesystem/src/query.rs:769-794 | appends the matches of a file while there is room and marks truncation iff some found none |
| `QuerySearch.SearchState.SearchRegularFile` | crates/xgeny-adapter-filesystem/src/query.rs:716-767 | sound for every file; complete unless a budget ran out; marks truncation only for a used-up budget or an unsearchable file, and always for the latter; the byte budget ends only when it is used up or the file is longer than what is left; fails only for a file without metadata or an unreadable one |
| `QuerySearch.SearchState.ListNames` | crates/xgeny-adapter-filesystem/src/query.rs:669-692 | counts every entry once, so `TooManyEntries` is unreachable; collects every name that can be joined, each once, unless the entry budget ran out; fails only on an unreadable item |
| `QuerySearch.SearchState.VisitChildren` | crates/xgeny-adapter-filesystem/src/query.rs:695-713 | what was added is exactly what the visited names contribute, all names are visited unless a budget ran out, and each node below is charged once |
| `QuerySearch.SearchState.SearchDirectory` | crates/xgeny-adapter-filesystem/src/query.rs:655-714 | adds only real hits, each key once; unless a budget ran out it finds every hit, and success means nothing below makes a search fail; truncated exactly for an unsearchable thing below or a used-up budget, and the budgets are paid by nodes below, each charged once; at most one directory call more than entries visited; terminates on cyclic trees by remaining path depth |
| `QuerySearch.ChildHits` | crates/xgeny-adapter-filesystem/src/query.rs:655-714 | the hits below a name are those of the subtree, or of the file, at that name |
| `QuerySearch.DirectoryFromChildren` | crates/xgeny-adapter-filesystem/src/query.rs:655-714 | the hits of a directory are those of its names; nothing below it fails or is unsearchable when that holds for each name and for the listing |
| `QuerySearch.ChildrenApart` | crates/xgeny-adapter-filesystem/src/query.rs:783-788 | matches from different names never share a key |
| `QueryOperations.ParsedArguments` | crates/xgeny-adapter-filesystem/src/query.rs:487-525 | accepted arguments carry a well-formed path and a query within the bounds the search relies on |
| `QueryOperations.ParsedIff` | crates/xgeny-adapter-filesystem/src/query.rs:487-525 | arguments are accepted iff they are exactly the members of the operation: a canonical path and, for a search, a valid query |
| `QueryOperations.SortedMatches` | crates/xgeny-adapter-filesystem/src/query.rs:625-645 | sorting by path, line and column makes the keys strictly increasing and keeps the matches |
| `QueryOperations.SearchText` | crates/xgeny-adapter-filesystem/src/query.rs:611-631 | for fewer than 4096 entries, 8 MiB and 128 hits below the start: it fails iff something below makes a search fail, otherwise it finds exactly all hits and `truncated` holds iff something below is unsearchable or the output size drops a match. For every tree: at most 4097 directory calls, 4096 entries, 8 MiB and 128 matches; only hits are reported, the longest beginning of the sorted ones that fits; `truncated = false` means all hits and nothing unsearchable |
| `QueryDeterminism.ListingOrderIsIrrelevant` | crates/xgeny-adapter-filesystem/src/query.rs:611-714 | where no budget can run out, searches of two trees that differ only in the order in which directories list their entries fail alike and give the same matches with the same mark |
| `QueryOperations.HitsShape` | crates/xgeny-adapter-filesystem/src/query.rs:983-1035 | any list of hits with increasing keys passes the shape check of the verifier, in every workspace |
| `QueryOperations.ExecuteSearch` | crates/xgeny-adapter-filesystem/src/query.rs:261-322 | every finished search output is accepted by the verifier with its postcondition, and the law of `SearchText` holds for it |
| `QueryOperations.InspectFinished` | crates/xgeny-adapter-filesystem/src/query.rs:866-901 | the inspection of a finished output reports its digest, its payload size and `postcondition = true` |
| `QueryOutput.FieldsSizeAny` | crates/xgeny-adapter-filesystem/src/query.rs:374-382 | the canonical size of an object does not depend on the order in which its members are counted |
| `QueryOutput.EnvelopeSize` | crates/xgeny-adapter-filesystem/src/query.rs:366-382 | the canonical size of a collection with its digest is exactly 115 bytes, its candidates and their commas, one less when truncated (section 3.2 of RFC 8785) |
| `CanonicalJson.SizeIsLength` | crates/xgeny-adapter-filesystem/src/query.rs:374-382 | the sizes the bounds use are the lengths of the canonical text (section 3.2 of RFC 8785), written out with its escapes, digits and separators, in whatever order the members come |
| `QueryOutput.BoundedCollectionOutput` | crates/xgeny-adapter-filesystem/src/query.rs:325-357 | keeps the longest prefix that fits, marks truncation iff something is dropped or was incomplete, and the final size check cannot fail when the empty envelope fits |
| `QueryOutput.Finish` | crates/xgeny-adapter-filesystem/src/query.rs:304-322 | succeeds iff the output with its digest fits in 128 KiB |
| `QueryOutput.ValidateSearchOutput` | crates/xgeny-adapter-filesystem/src/query.rs:983-1035 | accepts exactly well-shaped matches with strictly increasing keys |
| `QueryOutput.ValidateListOutput` | crates/xgeny-adapter-filesystem/src/query.rs:915-966 | accepts exactly well-shaped entries with strictly increasing paths |
| `QueryOutput.InspectOutput` | crates/xgeny-adapter-filesystem/src/query.rs:866-901 | accepts exactly the acceptable outputs; the postcondition holds iff claimed and evidence digest are that of the payload |
| `QueryAcceptance.AcceptedSearchIff` | crates/xgeny-adapter-filesystem/src/query.rs:866-1035 | the verifier accepts a search iff it is the finished form, within 128 KiB, of at most 128 matches of files below the root, with numbers in 64 bits and previews of at most 512 bytes, strictly increasing by path, line and column |
| `QueryAcceptance.AcceptedListingIff` | crates/xgeny-adapter-filesystem/src/query.rs:866-966 | the verifier accepts a listing iff it is the finished form, within 128 KiB, of at most 512 entries, each of a path under its own last name with a size exactly for files, strictly increasing by path |
| `QueryOutput.FinishedIsAccepted` | crates/xgeny-adapter-filesystem/src/query.rs:304-322 | adding the digest keeps the shape, removing it gives the payload back |
| `QueryListing.Scan` | crates/xgeny-adapter-filesystem/src/query.rs:527-571 | each error has its exact condition on the first 4096 items; `incomplete` iff an item is left out or shown as less than it is |
| `QueryListing.EntriesAreShown` | crates/xgeny-adapter-filesystem/src/query.rs:538-571 | the entries are exactly those of the named, typed items, each with its kind (a directory only if it opens, a file only with its length); none is missing iff every item is shown |
| `QueryListing.ListDirectory` | crates/xgeny-adapter-filesystem/src/query.rs:527-588 | the longest beginning of the first 512 entries by path that fits; `truncated` iff an item is missing or degraded; complete otherwise; exact errors |
| `QueryListing.ExecuteList` | crates/xgeny-adapter-filesystem/src/query.rs:261-322 | every finished listing is accepted by the verifier with its postcondition |
| `JsonPointer.EscapeUnescape` | crates/xgeny-policy/src/resolution.rs:438-441 | the two replacement passes of section 4 of RFC 6901 invert escaping on well-formed tokens |
| `JsonPointer.UnescapeEscape` | crates/xgeny-policy/src/resolution.rs:438-441 | every string has a well-formed token that decodes to it |
| `JsonPointer.PointerInjective` | crates/xgeny-policy/src/resolution.rs:438-441 | different well-formed pointers decode to different positions |
| `JsonPointer.IndexToken` | crates/xgeny-policy/src/resolution.rs:438-441 | each array index has exactly one token |
| `JsonPointer.PutExtends` | crates/xgeny-policy/src/resolution.rs:479-493 | one more assignment through a pointer is one more position of the simultaneous replacement |
| `Resolution.LeafIsLowest` | crates/xgeny-policy/src/resolution.rs:479-493 | no selected string lies above another existing position |
| `Resolution.SelectedIff` | crates/xgeny-policy/src/resolution.rs:433-477 | what one selector gives, case by case: the canonical form of the non-empty string it points to, or the error for what it points to or the resolver says instead |
| `Resolution.NormalizeResourceArguments` | crates/xgeny-policy/src/resolution.rs:479-493 | assigning one pointer after the other is the simultaneous replacement of all selected strings, and no target is lost |
| `Resolution.DeriveInvocationResources` | crates/xgeny-policy/src/resolution.rs:385-431 | succeeds iff every selector resolves, equal pointers agree and no resource repeats; returns exactly the scopes, resources and normalised arguments; otherwise the error of the first selector in order |
| `Resolution.NormalizedCriticalActions` | crates/xgeny-policy/src/resolution.rs:495-516 | fails iff an action repeats; otherwise the same actions in strictly increasing rank |
| `Resolution.ResolveInvocation` | crates/xgeny-policy/src/resolution.rs:193-224 | success means shape, derivation and actions are in order, the actions each once by rank; each failure of the shape has its error, and otherwise the error is that of the derivation or, after it, of a repeated action |
| `ResolutionLaws.DerivesUnique` | crates/xgeny-policy/src/resolution.rs:385-431 | success or failure, and which one, is determined by the selectors and the arguments |
| `ResolutionLaws.SelectorOrderIrrelevant` | crates/xgeny-policy/src/resolution.rs:385-402 | permuting the selectors changes neither result nor error |
| `ResolutionLaws.UnselectedUnchanged` | crates/xgeny-policy/src/resolution.rs:479-493 | a position with no selected one at or below it keeps its value; containers above keep their keys or length |
| `ResolutionLaws.FaithfulIffConsistent` | crates/xgeny-policy/src/resolution.rs:385-431 | the resources are the strings at the selectors in the normalised arguments iff no two selectors name one position and canonicalise it differently |
| `ResolutionLaws.WellFormedIsConsistent` | crates/xgeny-policy/src/resolution.rs:404-412 | with well-formed pointers that condition always holds |
| `ResolutionLaws.ResolvingAgainIsStable` | crates/xgeny-policy/src/resolution.rs:193-224 | with an idempotent resolver, resolving the normalised arguments again gives the same scopes, resources and arguments |
| `ResolutionLaws.MalformedPointersDisagree` | crates/xgeny-policy/src/resolution.rs:404-412 | two selectors, one with a bare tilde, for which the derivation succeeds with a resource that the arguments do not hold, whenever the resolver answers two scopes differently |
| `ResolutionLaws.WorkspaceResolverIff` | crates/xgeny-adapter-filesystem/src/lib.rs:272-279 | the workspace resolver succeeds iff the scope is one of its two and the string is one of the two ways to write a path, whose resource it returns; other scopes are unsupported |
| `ResolutionLaws.ExecutableIff` | crates/xgeny-adapter-process/src/catalog.rs:250-262 | the process resolver succeeds iff the string is a registered executable id of the grammar, bare or as its resource, which it returns |
| `ResolutionLaws.LocalResolverDisagrees` | crates/xgeny-cli/src/composition.rs:2404-2420 | the resolver of the command line is such a resolver |
| `ResolutionLaws.LocalResolverIsIdempotent` | crates/xgeny-cli/src/composition.rs:2404-2420 | the resolver of the command line is idempotent, executables included |
| `ResolutionLaws.WorkspaceResolverIsConsistent` | crates/xgeny-adapter-filesystem/src/lib.rs:272-279 | the workspace resolver alone answers every scope alike, so it never shows the disagreement |
| `ResolutionLaws.WorkspaceResolverIsIdempotent` | crates/xgeny-adapter-filesystem/src/lib.rs:272-279 | the resolver of the filesystem adapter is idempotent |
| `Profiles.ProfileIff` | crates/xgeny-cli/src/model_profile.rs:218-230 | a profile is accepted iff its name is 1 to 64 letters, digits, dots, underscores and dashes that begin with a letter or digit, its reference is `cred-` and 32 hexadecimal digits, the provider takes it, its timeout is positive and at most an hour and its tokens 1 to 65536 |
| `Profiles.ModelProfiles.Upsert` | crates/xgeny-cli/src/model_profile.rs:301-320 | keeps the invariant; contents change at one name, the previous profile is returned; fails iff the profile is invalid or a 65th name would appear |
| `Profiles.ModelProfiles.SetActive` | crates/xgeny-cli/src/model_profile.rs:327-333 | succeeds iff the name exists |
| `Profiles.ModelProfiles.ClearCredential` | crates/xgeny-cli/src/model_profile.rs:340-347 | takes the reference of one profile and changes nothing else |
| `Profiles.ModelProfiles.Remove` | crates/xgeny-cli/src/model_profile.rs:354-365 | removes one name; the least remaining name becomes active when the active one goes |
| `Profiles.UpsertMeaning` | crates/xgeny-cli/src/model_profile.rs:301-320 | replace-or-push and sort is a map update that keeps strict name order |
| `Profiles.RemoveMeaning` | crates/xgeny-cli/src/model_profile.rs:354-365 | removal by index is a map removal that keeps strict name order |
| `Profiles.OrderedUnique` | crates/xgeny-cli/src/model_profile.rs:301-320 | a collection in name order is determined by its map |
| `Profiles.ValidMeaning` | crates/xgeny-cli/src/model_profile.rs:367-386 | what the collection class keeps is validity of the map it stands for |
| `Profiles.MeaningKeepsValid` | crates/xgeny-cli/src/main.rs:896-941 | every command keeps unique names, at most 64 profiles and an existing active name or none |
| `Profiles.SetupThenDrop` | crates/xgeny-cli/src/main.rs:1034-1056 | removing a profile that was just set up restores the profiles |
| `Profiles.PerformOnMeaning` | crates/xgeny-cli/src/main.rs:896-941 | the commands on sorted lists mean what the commands on maps say, errors included |
| `Profiles.Perform` | crates/xgeny-cli/src/main.rs:991-1056 | the commands as performed on the mutable collection are those commands |
| `ProfileStorage.Validate` | crates/xgeny-cli/src/model_profile.rs:367-386 | accepts exactly bounded collections of valid profiles with unique names and an existing active name or none |
| `ProfileStorage.LoadedIsValid` | crates/xgeny-cli/src/model_profile.rs:719-736 | whatever a file says, what loads is valid and in name order |
| `ProfileStorage.StoredRoundTrip` | crates/xgeny-cli/src/model_profile.rs:706-803 | exact result of storing and loading any valid collection: timeouts lose their fraction, and one below a second makes the file invalid |
| `ProfileStorage.RoundTripIffWholeSeconds` | crates/xgeny-cli/src/model_profile.rs:706-803 | the round trip is the identity iff every timeout is in whole seconds |
| `ProfileProtocol.StepKeepsInv` | crates/xgeny-cli/src/model_profile.rs:478-569 | every step of any process, with any failure or crash, keeps: one lock holder, the file is the replay of the log, the log is in lock order, pending saves start from the current file |
| `ProfileProtocol.NoLostUpdates` | crates/xgeny-cli/src/model_profile.rs:478-569 | in every interleaving the file is the logged commands applied in lock order; a save that returned `Ok` is logged exactly once; failures that claim no change are not logged |
| `ProfileProtocol.EffectIff` | crates/xgeny-cli/src/model_profile.rs:524-569 | over every run, for every process that returned or crashed: the file was changed iff it ended at or after a stage that took effect; for `ProfileStoreUnavailable` iff at the last check, for `ProfileCommitUnknown` iff not at a rename that did not happen |
| `ProfileProtocol.LastStepTells` | crates/xgeny-cli/src/model_profile.rs:555-566 | the step that returns `ProfileStoreUnavailable` follows a change iff it is the last check; one that returns `ProfileCommitUnknown` iff it is the sync or a rename that happened |
| `ProfileProtocol.UnavailableSaysNothing` | crates/xgeny-cli/src/model_profile.rs:563-566 | for any command with something to save: a run that returns `Ok` with its file in place, and runs that end in `ProfileStoreUnavailable` with the command saved and without |
| `ProfileProtocol.CommitUnknownSaysNothing` | crates/xgeny-cli/src/model_profile.rs:555-561 | the same for `ProfileCommitUnknown` |
| `ProfileProtocol.EarlyIsCurrent` | crates/xgeny-cli/src/main.rs:896-941 | in every run a setup, which loads before it takes the lock, saves or returns `Ok` only if the file it loaded is the very one its save started from: what all commands before it in the log had left |
| `ProfileProtocol.ConflictIff` | crates/xgeny-cli/src/main.rs:896-899 | over every run, a step that does not fail ends in `ConcurrentModification` iff another process has the lock, or the locked file is not the one loaded before; the digest comparisons of `save` never fail under the lock |
| `ProfileProtocol.StaleSetupConflicts` | crates/xgeny-cli/src/main.rs:896-899 | for every loadable file and every command that changes it there is a run in which a setup loads, the other process saves and returns `Ok`, and the setup ends in `ConcurrentModification` |
| `ProfileProtocol.StoredIsFold` | crates/xgeny-cli/src/main.rs:896-941 | with timeouts in whole seconds the stored collection is always valid and is the fold of the logged commands |
| `ProfileProtocol.SetupReadableIff` | crates/xgeny-cli/src/model_profile.rs:765-803 | setting up a profile leaves a loadable file iff its timeout is at least one second; otherwise every later command fails |
| `ProfileProtocol.CommandLineIsWhole` | crates/xgeny-cli/src/main.rs:1151-1180 | commands given on the command line have timeouts in whole seconds, and none below one |
| `Capture.CaptureReader` | crates/xgeny-adapter-process/src/execution.rs:371-398 | for every chunking the result is that of the whole stream |
| `Capture.CaptureIsText` | crates/xgeny-adapter-process/src/execution.rs:371-398 | captured text is valid and within the maximum; not truncated iff the stream and its lossy decoding fit; then it is the whole text |
| `Capture.FitIsText` | crates/xgeny-adapter-process/src/execution.rs:388-396 | the cut is on a character boundary and loses at most three bytes of room |
| `Scalars.LossyKeepsText` | crates/xgeny-adapter-process/src/execution.rs:388-388 | lossy decoding keeps every encoded scalar value |
| `Scalars.LossyReplaces` | crates/xgeny-adapter-process/src/execution.rs:388-388 | where no scalar value is encoded, one U+FFFD stands for the longest beginning of an encoding, or for one byte |
| `Scalars.BadLengthIff` | crates/xgeny-adapter-process/src/execution.rs:388-388 | the length of what is replaced, characterised by the encodings alone |
| `Capture.InspectProcessOutput` | crates/xgeny-adapter-process/src/verifier.rs:90-138 | accepts exactly the well-shaped outputs with the expected digest |
| `Capture.ShapedIff` | crates/xgeny-adapter-process/src/verifier.rs:90-131 | the check accepts exactly the outputs that can be built: eight members and no others, a coherent outcome with a 32-bit code, captures of at most 32 KiB, a duration of at most 660 s |
| `Capture.BuildOutput` | crates/xgeny-adapter-process/src/execution.rs:410-433 | fails iff a stream or the duration is out of bounds or outcome, success and code are incoherent |
| `Capture.AwaitTermination` | crates/xgeny-adapter-process/src/execution.rs:301-326 | the loop ends, polls at most once per ten milliseconds of the timeout (plus three), reports the status that the child gave last, and a time-out only after the time and a successful kill without any status |
| `Capture.LimitsIff` | crates/xgeny-adapter-process/src/execution.rs:81-92 | limits are accepted iff the timeout is 100 ms to ten minutes and the output bound 1 to 32 KiB, and are returned as given |
| `Capture.LimitsSuffice` | crates/xgeny-adapter-process/src/execution.rs:81-92 | accepted limits keep captures within 32 KiB and the loop within 60003 polls |
| `Capture.RunProcess` | crates/xgeny-adapter-process/src/execution.rs:220-349 | every output returned passes the check and holds the status the child gave, the captures of the whole streams and the elapsed milliseconds; `ResponseUnverifiable` means a capture is missing |
| `LineReader.ReadBoundedLine` | crates/xgeny-cli/src/repl.rs:847-893 | without read errors, result and remaining input are those of the first line of the byte stream, for every buffering; an over-long line is consumed exactly |
| `LineReader.DrainLine` | crates/xgeny-cli/src/repl.rs:895-911 | consumes exactly the rest of the line and terminates |
| `LineReader.ReadAll` | crates/xgeny-cli/src/repl.rs:246-276 | the results of the input thread are a function of the byte stream |
| `LineReader.SessionIsPerLine` | crates/xgeny-cli/src/repl.rs:847-893 | each line gives exactly one result, judged on that line alone, over-long or not |
| `LineReader.RelayedIff` | crates/xgeny-cli/src/repl.rs:278-305 | a line is read back unchanged iff it fits with its newline and does not end in a carriage return |
| `LineReader.RelayAll` | crates/xgeny-cli/src/repl.rs:278-331 | handing the results on through the buffer gives the relayed results |
| `LineReader.RelayIff` | crates/xgeny-cli/src/repl.rs:246-331 | for every input: what the loop is given is what the input thread read iff every line survives the relay |
| `LineReader.LostLines` | crates/xgeny-cli/src/repl.rs:246-305 | the lines that do not survive are those that end in two carriage returns and a newline, and an unterminated last one that ends in a carriage return or has the greatest length |
| `LineReader.ReturnIsLost` | crates/xgeny-cli/src/repl.rs:884-893 | an input for which the loop is given a shorter line than the input thread read |
| `LineReader.LongLineIsLost` | crates/xgeny-cli/src/repl.rs:867-877 | an input whose line the input thread reads and the loop rejects as too large |
| `LineReader.ReadEntry` | crates/xgeny-cli/src/repl.rs:792-845 | the entry and the input it takes are a function of the byte stream |
| `LineReader.TypedGoal` | crates/xgeny-cli/src/repl.rs:792-845 | what is typed is what is asked: any lines continued by backslashes are read as the goal that joins them with newlines, and nothing after them is consumed |
| `LineReader.JoinedSplits` | crates/xgeny-cli/src/repl.rs:805-843 | the goal splits into the lines it was typed with |
| `LineReader.TypedCommand` | crates/xgeny-cli/src/repl.rs:829-838 | a single line is blank, the interrupt, a known or an unknown command exactly by its trimmed form |
| `LineReader.MarkIsDropped` | crates/xgeny-cli/src/repl.rs:814-820 | a byte order mark is dropped from the first line of the input |
| `LineReader.ContinuationIff` | crates/xgeny-cli/src/repl.rs:913-921 | a line continues iff it ends in an odd number of backslashes |
| `LineReader.LineThenRest` | crates/xgeny-cli/src/repl.rs:847-893 | a line typed with a newline, or a carriage return and a newline, reads as itself and leaves the rest |
| `LineReader.GoalFits` | crates/xgeny-cli/src/repl.rs:792-845 | a goal is valid text of at most 16 KiB, whatever was typed |
| `LineReader.JoinedSizeExact` | crates/xgeny-cli/src/repl.rs:923-929 | `joined_size` is the length of the joined lines |
| `LineReader.ComposeSessionGoal` | crates/xgeny-cli/src/repl.rs:646-666 | the goal is always whole, the summary is cut on a character boundary to what fits, and the result stays within the bound |
| `Driver.Turn` | crates/xgeny-cli/src/driver.rs:314-500 | the last event of a round decides its result, and every event before it is safe |
| `Driver.DriveUntilPause` | crates/xgeny-cli/src/driver.rs:286-502 | for every behaviour of the ports: at most `max_ticks` ticks; every tick runs on the state just loaded, and where that may call the model (stated in its fields) it is permitted and was announced in between, nowhere else announced; `ModelEgressRequired` iff not permitted and the last round began on such a state; every effect announced with its class and not objected to, its material recovered iff its intent was only committed; every commit on the approval of the very request prepared for the step; nothing after a cancel answer; the result is what the last event says |
| `Driver.BeforeTick` | crates/xgeny-cli/src/driver.rs:315-323 | a tick on a state that may call the model needs permission and an announcement that was answered with continue; on any other state nothing is announced |
| `Driver.MayBeNextMeans` | crates/xgeny-cli/src/driver.rs:514-537 | `model_call_may_be_next` holds iff model calls are configured with none active, no candidate waits, the frontier is empty and both budgets have room; it fails iff that depends on a frontier that cannot be derived |
| `Driver.Approve` | crates/xgeny-cli/src/driver.rs:355-396 | commit only on approval of the same request, with the same inputs |
| `Driver.Execute` | crates/xgeny-cli/src/driver.rs:412-450 | the effect follows its announcement, at most the recovery of its material between |
| `Driver.SafeConcat` | crates/xgeny-cli/src/driver.rs:314-500 | safe rounds make safe runs |

## Left out

- Opening without following links, permission bits, reparse points and process groups: these are steps that may fail.
- A crash is a process that stops. Loss of power, and what `sync` protects, are not part of the model.
- Random temporary names: a new name that is not in the directory is never one that a running committer is still about to remove, and the temporary of the profile store is not followed after a failure.
- Writers that ignore the profile lock: the digest comparisons of `save` are modelled, but every process of the model takes the lock.
- The credential store calls around `model setup`, `model logout` and `model remove`.
- JSON numbers are integers; the canonical form of integers of 2^53 and more is taken to be their decimal digits.
- Failures of the serializer: the `Encode` error of query.rs cannot arise from the modelled values.
- QueryText.BoundedPreview: the 512-byte bound is stated for matches of at most 506 bytes, which all accepted queries meet; matches of 507 to 512 bytes are contained but may exceed it.
- QuerySearch.SearchState.SearchDirectory: the tree is fixed during the search and no file has grown since its length was reported, because soundness speaks of one content.
- QuerySearch.SearchState.SearchRegularFile: soundness is stated for files that have not grown since their length was reported; a file that grew is read up to the limit.
- QueryOperations.SearchText: the tree is fixed during the search, as for SearchDirectory; when a budget runs out, which matches are kept depends on the order of the visit; that they are real hits and that the answer is marked is stated, the order is not.
- QueryOperations.ExecuteSearch: the tree is fixed during the search, and file sizes are below 2^63, as they are in the operating system.
- The `stat` operation and its output check, which are two cases without state.
- Capability, instance and feature checks of the adapters (`verify_contract`, `verify_verifier_contract`).
- `planner_scope_hint` and the catalog digest of allow_path.rs, and its `Debug` form.
- `to_uppercase` in the Windows device-name test: ASCII letters and the dotless i, the only characters whose upper case can complete a device name.
- `resolve_schema_validated`, which checks a request list and has no argument tree.
- Resource sets and scope sets are returned as sets; their sorted listing is not repeated.
- Capture.RunProcess: the reader threads run one after the other, and their one-second grace is a flag; capturing does not depend on the interleaving because the pipes are separate.
- `merge_model_environment` and the argument vector of execution.rs: single-pass filters.
- LineReader.ReadBoundedLine: after a read error only progress is stated; bytes already read of the line are lost, as in the source.
- LineReader.ReadEntry: writing the prompt may fail in the source; white space and command syntax are parameters.
- Driver.DriveUntilPause: the agent loop, routing, admission, execution and verification are ports that may answer anything and change the durable state; `derive_frontier` is a component of that state.
- Concurrent changes of the durable state between the driver's look at it and its tick: the run lease excludes them and is not modelled.
- Network model checks, terminal text, command-line parsing, the SQLite store, `broker.rs`, `manifest.rs` and the catalogs.
