# Verification of the Codex app server's protocol logic

This project models four parts of the Codex workspace in Dafny and proves what they are for.

1. **Schema canonicalisation and rewriting.** JSON schema trees are canonicalised for comparison, annotated with titles,
   merged into one bundle with namespaced references, and stripped of experimental methods. The generated TypeScript is
   split into union arms by a character scanner, filtered and written back.
   (`Json`, `JsonText`, `Canonical`, `CanonicalOrder`, `Annotate`, `AnnotateCode`, `AnnotateNames`, `Bundle`,
   `BundleTitles`, `BundleWrites`, `BundleForced`, `BundleTrees`, `BundleEntries`, `Prune`, `Scanner`, `TypeAlias`,
   `TypeText`)
2. **Thread subscriptions and status.** The manager that knows which connection listens to which thread, the listener
   tasks it starts and cancels, and the status tracker with its counters, guards and notification stream.
   (`Subscriptions`, `SubscriptionHistory`, `ThreadStates`, `WatchStatus`)
3. **Requests and approvals.** Server request ids and callbacks, approval handlers, and the turn events that start and end
   items, end turns, answer interrupts and rollbacks. (`Outgoing`, `Approvals`, `TurnEvents`)
4. **Paging and searching.** The thread listing loop with its source filters, the list of loaded threads, and the search
   for the context lines of a patch. (`Filters`, `ListThreads`, `LoadedThreads`, `SeekSequence`)

`Seqs` and `Text` hold what the others share: reorderings, stable sorting, code point order, and Rust's trimming.

## How it is built

Code that changes things step by step appears twice: as a method or class that does what the source does, loop by loop,
and as the function that it is proved equal to. The theorems are about that function. Objects such as the thread state
manager, the watch manager, the outgoing message sender and a thread's turn state are classes. Every operation on them is
a method that is proved to be one step of a state machine on values, and the theorems range over all runs of that machine;
methods that such a method is made of state what they do to the object's fields. The approval handlers are methods that
append to logs, equal to the response that the theorems are about. Each handler is one atomic step; a rollback request is
two, because its submission may fail.

Some plausible claims are false of the code. Each of them has a lemma with an input that shows it, and a lemma that says
exactly when the claim holds:

- One pruning pass may make an element experimental that was not (`Prune.OnePassMayLeaveOne`, `Prune.OnePassSuffices`).
- The direct add of the resume path can leave a closed connection subscribed
  (`Subscriptions.ResumeAddCanOutliveConnection`, `Subscriptions.RemoveConnectionForgets`); it breaks the agreement of the
  indexes exactly when it adds something (`Subscriptions.ResumeAddKeepsAgreementExactly`).
- A listener can be started for a thread that nobody is subscribed to, and stay (`Subscriptions.ListenerWithoutSubscribers`,
  `Subscriptions.UnheardExactly`).
- A guard that outlives a clear can take away a newer request's count (`WatchStatus.OldGuardHidesNewRequest`,
  `WatchStatus.PendingExactly`).
- A guard released after a shutdown makes the thread loaded again (`WatchStatus.ReleaseAfterShutdown`,
  `WatchStatus.NotLoadedExactly`).
- A reference to a definition that was moved into its namespace may be moved again (`BundleForced.MovedTwice`,
  `BundleForced.EndsUnderNamespaceExactly`).
- A rollback event in front of a failed submission gets the request a second reply (`TurnEvents.EarlyEventRepliesTwice`,
  `TurnEvents.RollbacksAnsweredOnce`).
- `seek_sequence` in end-of-file mode does not fall back to `start`, although its documentation says it does. The model
  follows the code (`SeekSequence.EofDoesNotFallBack`, `SeekSequence.DocumentedExactly`).
- The V1 exec approval handler submits nothing when its request fails, unlike the other three (`Approvals.SilentExecApproval`,
  `Approvals.ExactlyOneOp`).

The lister, the cursor codec, the state database, the id parser and the payload deserializers are function parameters.
Theorems that need something of them say so in a `requires`: the lister returns at most the requested number of
consecutive threads and advances, its cursors survive the codec, thread ids parse to themselves.

## Model

| member | source | states |
|---|---|---|
| `Canonical.CompleteNormalForm` | app-server-protocol/src/schema_fixtures.rs:94-169 | two JSON trees canonicalise to the same value exactly when they differ only by the order of object entries and of arrays whose elements are all sortable, at any depth; sortable are scalars and objects with a string under "$ref" or "title" |
| `CanonicalOrder.CanonicalFormExactly` | app-server-protocol/src/schema_fixtures.rs:94-169 | the canonical form of a tree is the one tree that is equivalent to it and in order; neither notion mentions sort keys |
| `CanonicalOrder.CanonicalInOrder` | app-server-protocol/src/schema_fixtures.rs:126-147 | in a canonical form the keys of every object ascend by code point, and every array of sortable elements ascends: booleans, numbers, null, references, strings, titled objects, each by their text and then by their JSON |
| `CanonicalOrder.FixedExactlyWhenInOrder` | app-server-protocol/src/schema_fixtures.rs:94-150 | canonicalisation leaves a tree alone exactly when it is in order |
| `CanonicalOrder.StringsAscend` | app-server-protocol/src/schema_fixtures.rs:116-137 | the strings of an array are kept and come out by code point |
| `CanonicalOrder.ItemOrder` | app-server-protocol/src/schema_fixtures.rs:128-169 | comparing by sort key and then by JSON text is that order of kinds and texts |
| `Canonical.SortKeyExactly` | app-server-protocol/src/schema_fixtures.rs:152-169 | an element has a sort key exactly when it is sortable |
| `Canonical.Idempotent` | app-server-protocol/src/schema_fixtures.rs:94-150 | canonicalising a canonical tree changes nothing |
| `Canonical.EquivalentToForm` | app-server-protocol/src/schema_fixtures.rs:94-150 | a canonical form is its tree up to insignificant order: nothing is lost or added |
| `Canonical.SortKeyInvariant` | app-server-protocol/src/schema_fixtures.rs:152-169 | an array element is sorted by the same key before and after its own canonicalisation |
| `Canonical.CanonicalWellFormed` | app-server-protocol/src/schema_fixtures.rs:139-147 | canonicalisation keeps object keys distinct |
| `Canonical.CanonicalizeJson` | app-server-protocol/src/schema_fixtures.rs:94-150 | the recursion, dispatching on the kind of value, computes the canonical form that the theorems are about |
| `Canonical.CanonicalizeItems` | app-server-protocol/src/schema_fixtures.rs:116-116 | canonicalises the elements of an array in place order |
| `Canonical.CanonicalizeArray` | app-server-protocol/src/schema_fixtures.rs:96-138 | the key loop with its early return and the sort compute the canonical form of an array |
| `Canonical.CanonicalizeEntries` | app-server-protocol/src/schema_fixtures.rs:142-146 | inserting the canonical children into a new map in the given order keeps that order |
| `Canonical.CanonicalizeObject` | app-server-protocol/src/schema_fixtures.rs:139-147 | sorting the entries first and canonicalising them then is the canonical form of an object |
| `JsonText.ToStringInjective` | app-server-protocol/src/schema_fixtures.rs:122-122 | the compact text that breaks ties between equal sort keys determines the value, so no two different elements compare equal |
| `Annotate.AnnotationIdempotent` | app-server-protocol/src/export.rs:1117-1239 | annotating a tree twice with one base is annotating it once, for every JSON tree |
| `Annotate.AnnotationSettles` | app-server-protocol/src/export.rs:1117-1239 | after annotation no title is missing anywhere that annotation would add one |
| `Annotate.SettledIsFixed` | app-server-protocol/src/export.rs:1117-1239 | a tree that misses no title is left alone |
| `Annotate.FixedExactlyWhenSettled` | app-server-protocol/src/export.rs:1117-1239 | annotation leaves a tree unchanged exactly when no title is missing |
| `Annotate.AddedTitlesAreDistinct` | app-server-protocol/src/export.rs:1184-1222 | existing variant titles stay, and every title added differs from all of them and from every other added title |
| `Annotate.CandidateInjective` | app-server-protocol/src/export.rs:1200-1205 | the candidate titles name, name2, name3, … are pairwise different, which is why the search for a free one ends |
| `AnnotateNames.GivenTitle` | app-server-protocol/src/export.rs:1184-1222 | a variant without a title that has a word gets the capitalised word and the suffix as its title; if that is taken, by a title of the list or one given before, the first free one of the numbers 2, 3, … follows |
| `AnnotateNames.NameIs` | app-server-protocol/src/export.rs:1065-1101 | the word and the suffix: the method literal with Request, Notification or the base, else the type literal, the only property or the only required key with the base |
| `AnnotateNames.NoTitleExactly` | app-server-protocol/src/export.rs:1193-1205 | a variant without a title gets none exactly when there is no base or it has no such word |
| `AnnotateNames.PascalExactly` | app-server-protocol/src/export.rs:1248-1268 | exactly underscores and hyphens are dropped, and exactly the first character and those behind one of them are put in upper case |
| `AnnotateNames.DiscriminatorTitles` | app-server-protocol/src/export.rs:1129-1135 | in an object with a title, exactly the properties called type, method, mode, status, role or reason that allow one string and have no title get one: the title of the object and the capitalised key |
| `AnnotateNames.VariantDiscriminators` | app-server-protocol/src/export.rs:1207-1213 | the same for a variant of a list, with the title the variant ends up with |
| `AnnotateNames.ListsAreTitled` | app-server-protocol/src/export.rs:1129-1182 | wherever a list of variants is in a tree, annotation titles it there, and the base is the last name under definitions or $defs on the way to it, else the given base |
| `AnnotateCode.PickTitle` | app-server-protocol/src/export.rs:1200-1205 | the candidate loop ends with the first candidate that was not seen; its measure is the set of seen names not tried yet |
| `AnnotateCode.CollectTitles` | app-server-protocol/src/export.rs:1185-1191 | gathers exactly the titles already in the list |
| `AnnotateCode.TitleVariant` | app-server-protocol/src/export.rs:1193-1218 | gives a variant its title and titles its discriminators, in the code's order of updates |
| `AnnotateCode.AnnotateVariantList` | app-server-protocol/src/export.rs:1184-1222 | the loop over variants, threading the seen titles, yields the annotated list |
| `AnnotateCode.SetDiscriminatorTitles` | app-server-protocol/src/export.rs:1224-1239 | the loop over the six discriminator keys titles exactly the untitled literal properties among them |
| `AnnotateCode.SetPropertyTitles` | app-server-protocol/src/export.rs:1130-1135 | titles the discriminators under "properties" and touches no other entry |
| `AnnotateCode.AnnotateSchema` | app-server-protocol/src/export.rs:1117-1127 | the recursion over a value, updating in place, computes the annotated tree |
| `AnnotateCode.AnnotateObject` | app-server-protocol/src/export.rs:1129-1182 | the owner's titles, the seven special keys and then the rest, in the code's order, compute the annotated object |
| `AnnotateCode.AnnotateOwnKeys` | app-server-protocol/src/export.rs:1137-1168 | handling the seven special keys one after the other gives each its annotated value and leaves the other entries |
| `AnnotateCode.AnnotateRest` | app-server-protocol/src/export.rs:1170-1181 | the final loop annotates exactly the entries under other keys |
| `AnnotateCode.AnnotateChild` | app-server-protocol/src/export.rs:1137-1181 | what a key decides about the annotation of its value |
| `AnnotateCode.AnnotateEntries` | app-server-protocol/src/export.rs:1144-1161 | definitions are annotated with their own names as base, properties with the enclosing one |
| `Bundle.NamespaceResolves` | app-server-protocol/src/export.rs:839-944 | when every schema of a namespace refers only to itself and its own definitions, no reference under definitions/ns dangles in the finished bundle |
| `Bundle.ClosedSchemasResolve` | app-server-protocol/src/export.rs:839-944 | every reference in every bundled copy of such a schema points at an entry under definitions/ns, whatever the other schemas do |
| `Bundle.NamespaceContents` | app-server-protocol/src/export.rs:839-944 | definitions/ns holds exactly the names that the schemas of ns define, and under each name a copy that one of those schemas put there |
| `Bundle.ResolvesExactly` | app-server-protocol/src/export.rs:1005-1027 | a rewritten reference resolves exactly when some schema of the namespace defines its target |
| `Bundle.ResolvesUnder` | app-server-protocol/src/export.rs:839-944 | a reference to any name under definitions/ns resolves exactly when some schema of the namespace defines the name |
| `Bundle.RewriteRefIdempotent` | app-server-protocol/src/export.rs:1005-1027 | a reference that was moved into a namespace is not moved again |
| `Bundle.RewrittenTwice` | app-server-protocol/src/export.rs:1005-1027 | rewriting the references of any tree twice is rewriting them once, as bundling does |
| `Bundle.RewrittenMentions` | app-server-protocol/src/export.rs:1005-1027 | the references of a rewritten tree are exactly the rewritten references of the tree |
| `Bundle.MappedMentions` | app-server-protocol/src/export.rs:1005-1027 | replacing every reference of a tree leaves exactly the replaced references, for any replacement |
| `Bundle.AnnotatedMentions` | app-server-protocol/src/export.rs:1117-1239 | annotation introduces no reference |
| `BundleTrees.PlacesKept` | app-server-protocol/src/export.rs:1005-1027 | moving references keeps every place of a tree with its kind of value, length, keys or scalar; only a string under "$ref" becomes the moved reference |
| `BundleTrees.AnnotationAddsTitles` | app-server-protocol/src/export.rs:1117-1239 | annotation changes nothing but titles, and those only where there was no string as title |
| `BundleEntries.NamespaceEntriesAre` | app-server-protocol/src/export.rs:839-944 | every entry under definitions/ns is a schema of the namespace without its definitions, or one of its definitions: apart from titles the same tree, place by place, with its references moved |
| `BundleEntries.NamespaceEntryIs` | app-server-protocol/src/export.rs:839-944 | the last schema of the namespace that defines a name decides the entry under it; under the schema's own name it is the schema |
| `BundleEntries.RootEntriesAre` | app-server-protocol/src/export.rs:896-910 | every entry at the root under a name that is no namespace is a root schema without its definitions and with deferred references moved, or a definition of a root schema with titles added |
| `BundleEntries.RootNamesExactly` | app-server-protocol/src/export.rs:880-910 | such a name is there exactly when a root schema has it, or has a definition of that name that is not skipped and belongs to no namespace or comes from the v1 directory |
| `BundleEntries.RewriteRefExactly` | app-server-protocol/src/export.rs:1008-1016 | a reference under #/definitions/ goes under the namespace unless it is there already, and every other one stays |
| `BundleEntries.NamespaceForExactly` | app-server-protocol/src/export.rs:1051-1063 | a name belongs to its own namespace if it has one, and otherwise to that of its stem in front of trailing digits |
| `BundleEntries.RenamedTogether` | app-server-protocol/src/export.rs:902-904 | renaming by one deferred definition after the other is one pass over the references, so it too keeps everything else |
| `BundleEntries.RemoveExactly` | app-server-protocol/src/export.rs:869-869 | removing a key keeps what is under the others |
| `BundleWrites.BundlingFailsExactly` | app-server-protocol/src/export.rs:839-944 | bundling fails exactly when something goes into a namespace at a moment when the last root definition under the namespace's name is not an object |
| `BundleWrites.BundlingIsWriting` | app-server-protocol/src/export.rs:839-944 | bundling is one list of insertions, at the root or into a namespace, made in order until one fails |
| `BundleWrites.RootHolds` | app-server-protocol/src/export.rs:897-910 | under a name that is no namespace, the bundle holds at the root what was last put there |
| `BundleWrites.RootEntryIsTopValue` | app-server-protocol/src/export.rs:897-910 | the bundle's entry of a root schema that is the last of its name, no namespace, is its top value with the forced references moved |
| `BundleWrites.BundlingSucceeds` | app-server-protocol/src/export.rs:928-944 | in particular it does not fail when no namespace name is also a root definition |
| `BundleForced.DeferredReferenceResolves` | app-server-protocol/src/export.rs:880-905 | in the finished bundle, the entry of a root schema that is the last of its name, no namespace, refers to a deferred definition that no other one captures under the definition's namespace, and the reference resolves exactly when some schema of the namespace defines it |
| `BundleForced.DeferredReferenceMoves` | app-server-protocol/src/export.rs:902-904 | a top-level reference to a deferred definition that no other deferred definition captures ends right under the definition's namespace |
| `BundleForced.EndsUnderNamespaceExactly` | app-server-protocol/src/export.rs:902-904 | a reference ends right under the namespace of the first deferred definition that captures it exactly when no later one captures the result again |
| `BundleForced.StaysExactly` | app-server-protocol/src/export.rs:902-904 | a reference stays exactly when no deferred definition captures it |
| `BundleForced.MovedTwice` | app-server-protocol/src/export.rs:902-904 | three schemas whose bundle moves a reference twice, because a deferred definition is named like the namespace of another |
| `BundleForced.TrimmedDefinitionIsLost` | app-server-protocol/src/export.rs:1051-1063 | a root schema's definition that belongs to a namespace only by its name without the trailing digits is not bundled, and references moved to it never resolve |
| `BundleForced.RenameRefMoves` | app-server-protocol/src/export.rs:1274-1299 | one renaming moves exactly the references to the definition or into it, whole |
| `BundleForced.RenameAllMentions` | app-server-protocol/src/export.rs:902-904 | the references afterwards are exactly the renamed references |
| `BundleForced.DeferredAre` | app-server-protocol/src/export.rs:880-895 | the deferred definitions are exactly the own definitions that are not skipped and belong to a namespace that is not the schema's |
| `Bundle.BuildSchemaBundle` | app-server-protocol/src/export.rs:839-926 | the loop over the schemas, with its skips and its error return, fails exactly when the bundle that the theorems are about does, and else returns a document with its definitions, the dialect, the title and the type |
| `Bundle.AddOwnDefinitions` | app-server-protocol/src/export.rs:867-900 | the loop over a schema's own definitions inserts, rewrites or defers each one |
| `Bundle.CollectTypes` | app-server-protocol/src/export.rs:1029-1049 | the loop collects the map that `Bundle.FirstSchemaDecides` is about |
| `Bundle.FirstSchemaDecides` | app-server-protocol/src/export.rs:1029-1049 | a name belongs to the namespace of the first schema that names it, as itself or among its definitions, and to none when no schema of a namespace does |
| `Bundle.InsertMissing` | app-server-protocol/src/export.rs:1036-1045 | the loop inserts the keys of one map of definitions as `Bundle.OrInsertAllKeeps` says |
| `Bundle.OrInsertAllKeeps` | app-server-protocol/src/export.rs:1036-1045 | names that have a namespace keep it, and the others get this one |
| `Bundle.RenameForced` | app-server-protocol/src/export.rs:902-904 | the loop over the deferred definitions renames by one after the other |
| `BundleTitles.SecondAnnotationAddsNothing` | app-server-protocol/src/export.rs:879-879 | the annotation inside bundling changes no definition of a schema that was annotated when it was generated, although references were rewritten in between |
| `BundleTitles.RewrittenSettled` | app-server-protocol/src/export.rs:1005-1027 | rewriting references makes no title go missing |
| `Prune.PruningDeletesExactly` | app-server-protocol/src/export.rs:404-453 | pruning deletes exactly the experimental variants of every array, keeps the order of the others and changes nothing else |
| `Prune.ExperimentalExactly` | app-server-protocol/src/export.rs:430-453 | an element is an experimental variant exactly when its properties.method is an object with an experimental constant, or without a string constant and with an experimental method as only choice |
| `Prune.OnePassSuffices` | app-server-protocol/src/export.rs:404-453 | no experimental variant is left exactly when no element that stays has a one-of-several enum that pruning itself would shrink to an experimental method |
| `Prune.SecondPass` | app-server-protocol/src/export.rs:404-453 | a second pass changes nothing exactly when one pass leaves no experimental variant |
| `Prune.PlainEnumsAreClean` | app-server-protocol/src/export.rs:430-453 | one pass suffices for every tree whose enum arrays hold no objects |
| `Prune.OnePassMayLeaveOne` | app-server-protocol/src/export.rs:413-453 | a tree on which one pass leaves an experimental variant |
| `Prune.FixedExactlyWhenFree` | app-server-protocol/src/export.rs:404-453 | pruning changes nothing exactly when there is no experimental variant |
| `Prune.PruneExperimentalMethods` | app-server-protocol/src/export.rs:404-411 | empty method names are ignored, and the tree is pruned by the others |
| `Prune.PruneInner` | app-server-protocol/src/export.rs:413-428 | the in-place recursion that filters an array before it descends computes the pruned tree |
| `Prune.Retain` | app-server-protocol/src/export.rs:416-416 | keeps the elements that are no experimental variant, in order |
| `Scanner.SurvivorsResplit` | app-server-protocol/src/export.rs:231-239 | for any text: splitting the joined survivors of a split gives back exactly the survivors |
| `Scanner.SplitOfJoin` | app-server-protocol/src/export.rs:654-673 | splitting undoes joining exactly for lists of non-empty trimmed parts that the scanner leaves in its start state without a cut |
| `Scanner.SplitGivesArms` | app-server-protocol/src/export.rs:654-673 | every part of every split is such a part: each cut is made in the scanner's start state |
| `Scanner.FilterTwice` | app-server-protocol/src/export.rs:232-238 | filtering the arms twice is filtering them once |
| `Scanner.FilterMembers` | app-server-protocol/src/export.rs:232-238 | an arm survives exactly when it was there and passes |
| `Scanner.ScanState.Observe` | app-server-protocol/src/export.rs:783-818 | one character moves the scanner's string, escape and depth fields as the scanner function does |
| `Scanner.SplitTopLevelMulti` | app-server-protocol/src/export.rs:654-673 | the scanning loop with its start index cuts the text into the parts of the split |
| `TypeAlias.ReplacedBodyReparses` | app-server-protocol/src/export.rs:602-612 | an alias with its body replaced by any text parses back into the same prefix and suffix around that text, and an unchanged one is the file |
| `TypeAlias.FilteredFileReparses` | app-server-protocol/src/export.rs:214-248 | the rewritten file has the same text around the alias; an arm of the old body is in the new one exactly when no method or a method that is not experimental is found in it, and the order stays; a file without an alias is left alone |
| `TypeText.GeneratedFileFiltered` | app-server-protocol/src/export.rs:214-248 | filtering a file generated for some request types leaves the file that would be generated for the stable ones |
| `TypeText.SplitOfPieces` | app-server-protocol/src/export.rs:654-673 | text of nested groups and string literals is cut exactly at the delimiters outside of them |
| `TypeText.PiecesReturn` | app-server-protocol/src/export.rs:783-818 | behind every balanced piece the scanner is back in the state in front of it, whatever the string literals hold |
| `TypeText.MethodOfBalancedArm` | app-server-protocol/src/export.rs:675-690 | the method is read from every generated arm whose other fields are balanced text |
| `TypeAlias.RenderedArmSurvives` | app-server-protocol/src/export.rs:232-238 | a generated arm of the file survives exactly when its method is not experimental |
| `TypeAlias.FilterIdempotent` | app-server-protocol/src/export.rs:214-248 | filtering a file again changes nothing |
| `TypeAlias.MethodOfRenderedArm` | app-server-protocol/src/export.rs:675-690 | the method name is read from every arm in the generated form, whatever its other fields hold |
| `TypeAlias.FindTopLevelBraceSpan` | app-server-protocol/src/export.rs:631-648 | the scanning loop finds the span between the last top-level opening brace and the first closing one behind it |
| `TypeAlias.MethodIn` | app-server-protocol/src/export.rs:678-689 | the first field called "method" decides, by its string literal |
| `TypeAlias.ExtractMethod` | app-server-protocol/src/export.rs:675-690 | the method of an arm, found through its braces and top-level fields |
| `TypeAlias.KeepArms` | app-server-protocol/src/export.rs:232-238 | the loop keeps the arms that the filter keeps, in order |
| `TypeAlias.FilterClientRequestTs` | app-server-protocol/src/export.rs:214-240 | empty method names are ignored, and the text of the file is the one that `TypeAlias.FilteredFileReparses` describes for the others |
| `Subscriptions.IndexAgreesOverRuns` | app-server/src/thread_state.rs:139-270 | over every run of the manager's own operations, a thread is indexed under a connection exactly when the connection is in the thread's subscribed set |
| `Subscriptions.StepKeepsAgreement` | app-server/src/thread_state.rs:139-270 | every operation keeps: indexed is subscribed, every subscription's pair is in both, no index entry is empty |
| `Subscriptions.RunsAgree` | app-server/src/thread_state.rs:139-270 | every run from such a state keeps that too |
| `Subscriptions.StepKeepsInclusion` | app-server/src/codex_message_processor.rs:6287-6287 | with the direct add of the resume path, indexed still implies subscribed |
| `Subscriptions.RunsKeepInclusion` | app-server/src/codex_message_processor.rs:6287-6287 | over every run, that add included, indexed implies subscribed |
| `Subscriptions.ResumeAddKeepsAgreementExactly` | app-server/src/codex_message_processor.rs:6287-6287 | the direct add keeps exact agreement exactly when the thread is unknown or already indexed under the connection |
| `Subscriptions.RemoveConnectionForgets` | app-server/src/thread_state.rs:242-270 | closing a connection removes every trace of it exactly when its index was empty or complete |
| `Subscriptions.ClosedConnectionIsForgotten` | app-server/src/thread_state.rs:242-270 | after any run of the manager's own operations, a closed connection is in no index, subscription or subscribed set |
| `Subscriptions.ResumeAddCanOutliveConnection` | app-server/src/codex_message_processor.rs:6287-6287 | a run in which a connection added by the resume path stays subscribed after it was closed |
| `Subscriptions.EmptiedThreadsLoseListeners` | app-server/src/thread_state.rs:250-269 | a thread that a closing connection was subscribed to and that is left empty has no listener left, the resume path included |
| `Subscriptions.UnheardExactly` | app-server/src/codex_message_processor.rs:3049-3056 | after any run, a thread has a listener and no subscriber exactly when some step started a listener for it without subscribers and no later step subscribed somebody, removed the thread or looked for subscribers |
| `Subscriptions.UnheardStep` | app-server/src/thread_state.rs:139-270 | what each operation does to a listener without subscribers: it is made, it stays, or it goes |
| `Subscriptions.ListenerWithoutSubscribers` | app-server/src/codex_message_processor.rs:3049-3056 | a run, resuming a running thread after its only connection closed, that leaves a listener without subscribers |
| `Subscriptions.ListenersNeverOutliveSubscribers` | app-server/src/thread_state.rs:146-270 | in particular, when no listener is started for a thread without subscribers, no thread without subscribers has one |
| `Subscriptions.OneListenerPerThread` | app-server/src/codex_message_processor.rs:5807-5821 | over every run, each listener task ever started was cancelled or is the one that exactly one thread holds; none is lost, and none is both |
| `Subscriptions.RunsTrackListeners` | app-server/src/codex_message_processor.rs:5807-5821 | from any state in which every started listener is cancelled or held, every run keeps it so |
| `SubscriptionHistory.SubscribedExactly` | app-server/src/thread_state.rs:139-270 | over every run of the manager's own operations, a connection is subscribed to a thread exactly when history says so: it was subscribed, and since then it was not closed, the thread was not removed and no unsubscription took away the last subscription for the pair |
| `SubscriptionHistory.RegisteredExactly` | app-server/src/thread_state.rs:146-219 | the subscriptions that live are exactly those that were opened last under their id and not ended since |
| `SubscriptionHistory.IndexStep` | app-server/src/thread_state.rs:139-270 | what each operation does to the index of a connection |
| `SubscriptionHistory.RawEventsExactly` | app-server/src/thread_state.rs:194-240 | after any run a thread reports raw events as its last subscription said, or because a later subscriber switched them on |
| `SubscriptionHistory.ListenerIsEnsured` | app-server/src/codex_message_processor.rs:5807-5821 | a thread whose listener is ensured follows that conversation, with the old listener if that did already and else with the new one after the old one was told to stop; no other thread is touched |
| `SubscriptionHistory.ListenersAreWhole` | app-server/src/thread_state.rs:64-85 | over every run, the cancel channel, the command channel and the conversation of a thread come and go together |
| `ThreadStates.ThreadState.SetListener` | app-server/src/thread_state.rs:64-76 | installs the new listener and signals the one it replaces |
| `ThreadStates.ThreadState.ClearListener` | app-server/src/thread_state.rs:78-85 | signals the listener and forgets it |
| `ThreadStates.ThreadState.AddConnection` | app-server/src/thread_state.rs:87-89 | only the subscribed set changes, by the connection |
| `ThreadStates.ThreadState.RemoveConnection` | app-server/src/thread_state.rs:91-93 | only the subscribed set changes, by the connection |
| `ThreadStates.ThreadStateManager.ThreadStateOf` | app-server/src/thread_state.rs:139-144 | returns the thread's own state object, a new one if it had none; the whole new state is the step that touches the thread |
| `ThreadStates.ThreadStateManager.RemoveListener` | app-server/src/thread_state.rs:146-180 | the whole new state of all three indexes and of the thread objects is the step of the state machine |
| `ThreadStates.ThreadStateManager.RemoveThreadState` | app-server/src/thread_state.rs:182-192 | the whole new state of the indexes, the thread objects and the cancel signals is the step of the state machine for removing a thread |
| `ThreadStates.ThreadStateManager.SetListener` | app-server/src/thread_state.rs:194-219 | the whole new state of the indexes, the thread objects and the cancel signals is the step of the state machine for subscribing under a subscription id |
| `ThreadStates.ThreadStateManager.EnsureConnectionSubscribed` | app-server/src/thread_state.rs:221-240 | the whole new state of the indexes, the thread objects and the cancel signals is the step of the state machine for subscribing without one; raw events are switched on but never off |
| `ThreadStates.ThreadStateManager.RemoveConnection` | app-server/src/thread_state.rs:242-270 | the whole new state of the indexes, the thread objects and the cancel signals is the step of the state machine for closing a connection, with its fallback to all threads when nothing is indexed |
| `ThreadStates.ThreadStateManager.AddResumedConnection` | app-server/src/codex_message_processor.rs:6287-6287 | adds the connection to the thread's state object alone: the whole new state is the step of the resume path |
| `ThreadStates.ThreadStateManager.UnsubscribeAll` | app-server/src/thread_state.rs:250-269 | the loop over the visited threads, in any order, drops the connection from each of them |
| `ThreadStates.ThreadStateManager.EnsureListenerTask` | app-server/src/codex_message_processor.rs:5807-5821 | starts a listener, replacing the old one, unless the thread already listens to this conversation |
| `WatchStatus.PendingBounded` | app-server/src/thread_status.rs:178-240 | in any interleaving, each pending counter is at most the number of unreleased guards of that kind for that thread |
| `WatchStatus.NothingPendingWithoutGuards` | app-server/src/thread_status.rs:178-240 | a pending counter is zero once all guards of its kind for its thread are released, whatever else happened |
| `WatchStatus.PendingExactly` | app-server/src/thread_status.rs:116-240 | in every feasible run, a pending counter is the number of its unreleased guards exactly when, since some moment with no such guard out, the thread was not cleared and the guards out fitted u32 |
| `WatchStatus.PendingExact` | app-server/src/thread_status.rs:178-240 | in particular it is on runs without a clearing step for the thread and without u32 saturation |
| `WatchStatus.OldGuardHidesNewRequest` | app-server/src/thread_status.rs:153-220 | a run, for any thread and kind, in which an old guard outlives a clear, a request is pending and its counter is zero |
| `WatchStatus.StreamIsCurrent` | app-server/src/thread_status.rs:192-208 | in every run, the last status published for a tracked thread is its current status |
| `WatchStatus.LogInStep` | app-server/src/thread_status.rs:248-304 | in every run, the notifications replay to the status of every thread, tracked or not |
| `WatchStatus.StreamHasNoRepeats` | app-server/src/thread_status.rs:292-304 | two publications in a row for one thread differ unless the thread was removed between them |
| `WatchStatus.NotLoadedExactly` | app-server/src/thread_status.rs:263-279 | a thread is reported as not loaded exactly when nothing happened to it or the last event about it was its shutdown or removal; a late guard release makes it loaded again |
| `WatchStatus.StatusExactly` | app-server/src/thread_status.rs:316-345 | after any run, a loaded thread is active exactly while a turn is on or a request is counted, with exactly the flags of the kinds counted; else it reports the system error behind the last turn start or removal, or is idle |
| `WatchStatus.FactsAre` | app-server/src/thread_status.rs:116-160 | a turn is on when the last of start, end, shutdown, error and removal was a start; an error is reported when the last of start, error and removal was an error |
| `WatchStatus.LateReleaseReloads` | app-server/src/thread_status.rs:210-279 | after any run, a guard released behind its thread's shutdown makes the thread loaded again |
| `WatchStatus.ReleaseAfterShutdown` | app-server/src/thread_status.rs:210-279 | the shortest run in which that happens |
| `WatchStatus.ThreadWatchManager.StoreAndPublish` | app-server/src/thread_status.rs:192-208 | the new facts are stored, and a notification goes out exactly when the status changed |
| `WatchStatus.ThreadWatchManager.UpsertThread` | app-server/src/thread_status.rs:248-256 | the whole new state is the step of the state machine |
| `WatchStatus.ThreadWatchManager.RemoveThread` | app-server/src/thread_status.rs:258-261 | the whole new state, notifications included, is the step for a removal: the facts are forgotten and nothing is published |
| `WatchStatus.ThreadWatchManager.NoteTurnStarted` | app-server/src/thread_status.rs:116-123 | the whole new state, notifications included, is the step for a turn start: running, loaded, no system error |
| `WatchStatus.ThreadWatchManager.NoteTurnEnded` | app-server/src/thread_status.rs:125-160 | the whole new state, notifications included, is the step for a turn end: not running, both counters cleared |
| `WatchStatus.ThreadWatchManager.NoteThreadShutdown` | app-server/src/thread_status.rs:133-141 | the whole new state, notifications included, is the step for a shutdown: not running, counters cleared, not loaded |
| `WatchStatus.ThreadWatchManager.NoteSystemError` | app-server/src/thread_status.rs:143-151 | the whole new state, notifications included, is the step for a system error: not running, counters cleared, error remembered |
| `WatchStatus.ThreadWatchManager.NotePendingRequest` | app-server/src/thread_status.rs:178-190 | the whole new state, notifications included, is the step for a new guard: its counter grows, saturating at u32::MAX, and the thread is loaded |
| `WatchStatus.ThreadWatchManager.NoteActiveGuardReleased` | app-server/src/thread_status.rs:210-220 | the whole new state, notifications included, is the step for a released guard: its counter shrinks, saturating at zero, and the thread is loaded |
| `Outgoing.IdsAreUnique` | app-server/src/outgoing_message.rs:142-142 | request ids are not reused while the counter has not wrapped |
| `Outgoing.SameIdExactly` | app-server/src/outgoing_message.rs:142-142 | two requests get the same id exactly when they are a multiple of 2^64 apart |
| `Outgoing.RunsPartition` | app-server/src/outgoing_message.rs:137-230 | at all times the issued requests are the disjoint union of the pending and the settled ones, and each waits under its own id |
| `Outgoing.NoneReplaced` | app-server/src/outgoing_message.rs:137-185 | until the counter wraps, settled means answered, cancelled or send-failed |
| `Outgoing.NoneReplacedInTime` | app-server/src/outgoing_message.rs:137-185 | no request is replaced in a run of at most 2^64 events |
| `Outgoing.FatesAreFinal` | app-server/src/outgoing_message.rs:187-230 | whatever happens later, a settled request stays as it was settled: the first reply wins |
| `Outgoing.StrangersChangeNothing` | app-server/src/outgoing_message.rs:187-230 | a reply, cancel or failed send for an id that is not pending changes nothing |
| `Outgoing.FatesExactly` | app-server/src/outgoing_message.rs:137-230 | a request has been answered with a reply, cancelled or given up exactly when, while it was pending, that reply, a cancel or a failed send came with its own id |
| `Outgoing.PendingIsSettled` | app-server/src/outgoing_message.rs:187-230 | a reply with the id of a pending request answers it; a cancel cancels it; a failed send ends it; no other request is touched |
| `Outgoing.NewRequestWaits` | app-server/src/outgoing_message.rs:142-148 | a new request is pending |
| `Outgoing.FirstIds` | app-server/src/outgoing_message.rs:142-142 | the first 2^63 requests have their own numbers as ids |
| `Outgoing.OutgoingMessageSender.Register` | app-server/src/outgoing_message.rs:142-148 | takes the next id, with i64 wrap-around, and stores the callback under it |
| `Outgoing.OutgoingMessageSender.SendRequestWithId` | app-server/src/outgoing_message.rs:137-185 | sends to the connections in turn; the first failed send drops the callback again |
| `Outgoing.OutgoingMessageSender.TakeCallback` | app-server/src/outgoing_message.rs:187-230 | removes the callback waiting under an id, if there is one, and settles its request |
| `Outgoing.OutgoingMessageSender.NotifyClientResponse` | app-server/src/outgoing_message.rs:187-203 | delivers the result to the waiting callback, if any |
| `Outgoing.OutgoingMessageSender.NotifyClientError` | app-server/src/outgoing_message.rs:205-222 | delivers the error to the waiting callback, if any |
| `Outgoing.OutgoingMessageSender.CancelRequest` | app-server/src/outgoing_message.rs:224-230 | drops the callback and says whether there was one |
| `Approvals.ExactlyOneOp` | app-server/src/bespoke_event_handling.rs:1512-1892 | in every run, an approval task submits nothing before its callback resolves and exactly one op once its handler has run, except a V1 exec approval, which does so only for a result |
| `Approvals.ApprovalsAreGranted` | app-server/src/bespoke_event_handling.rs:1708-1892 | in every run, a task has approved exactly when it is done and, while its request was pending, a client's reply with that request's own id came that decoded to an accepting decision |
| `Approvals.AcceptanceIsPassedOn` | app-server/src/outgoing_message.rs:187-203 | the whole way: an accepting result for a pending request, and then its task, submit exactly one op, which approves what was asked about |
| `Approvals.AskedIsPending` | app-server/src/outgoing_message.rs:137-185 | asking with somebody connected leaves a waiting task and its pending request |
| `Approvals.ApprovalNeedsAccept` | app-server/src/bespoke_event_handling.rs:1708-1892 | a handler approves exactly when its outcome is a result that decodes to an accepting decision; errors, dropped senders and undecodable payloads never approve |
| `Approvals.OpsAreAddressed` | app-server/src/bespoke_event_handling.rs:1512-1892 | in every run, an op goes to the call, item or approval that its task asked about |
| `Approvals.ClientsWordIsPassedOn` | app-server/src/bespoke_event_handling.rs:1708-1837 | in every run, a V2 task aborts, approves, approves for the session or amends the policy exactly when the client's decoded answer says so; V1 tasks pass the decoded decision on |
| `Approvals.FileChangeCompletion` | app-server/src/bespoke_event_handling.rs:1737-1785 | in every run, a file-change task completes its item itself exactly when it did not approve, and as failed exactly when there was no result |
| `Approvals.CommandCompletion` | app-server/src/bespoke_event_handling.rs:1804-1892 | in every run, a command task completes its item itself exactly when it neither approved nor was about a subcommand whose parent is running, and as failed exactly when there was no result besides |
| `Approvals.ResolvedTasksCanRun` | app-server/src/bespoke_event_handling.rs:1724-1785 | once its callback has resolved, a task's handler can always run to its end |
| `Approvals.NobodyConnectedIsDenied` | app-server/src/outgoing_message.rs:71-82 | asking with nobody connected is a dropped sender: every kind of task but V1 exec denies, to the right address, and V1 exec submits nothing |
| `Approvals.SilentExecApproval` | app-server/src/bespoke_event_handling.rs:1567-1607 | a run in which a V1 exec task is done and has submitted nothing |
| `Approvals.LostRequestsAreDenied` | app-server/src/bespoke_event_handling.rs:1512-1892 | a request that was cancelled, could not be sent, was answered with an error or undecodably is denied, to the right address, as soon as its task runs; V1 exec is silent unless there was a result |
| `Approvals.Handlers.OnPatchApprovalResponse` | app-server/src/bespoke_event_handling.rs:1512-1565 | V1 patch: the whole of what is submitted and completed, at each of its returns, is the response that the theorems are about |
| `Approvals.Handlers.OnExecApprovalResponse` | app-server/src/bespoke_event_handling.rs:1567-1607 | V1 exec: the whole of what is submitted and completed, at each of its returns, is the response that the theorems are about |
| `Approvals.Handlers.OnFileChangeRequestApprovalResponse` | app-server/src/bespoke_event_handling.rs:1724-1785 | V2 file change: the whole of what is submitted and completed, at each of its returns, is the response that the theorems are about |
| `Approvals.Handlers.OnCommandExecutionRequestApprovalResponse` | app-server/src/bespoke_event_handling.rs:1788-1892 | V2 command, with the suppression for subcommands: the whole of what is submitted and completed, at each of its returns, is the response that the theorems are about |
| `TurnEvents.StartsAreNotRepeated` | app-server/src/bespoke_event_handling.rs:186-207 | in every run, a file-change start is never sent twice without the item's completion or a turn end in between |
| `TurnEvents.StartedMatchesLog` | app-server/src/bespoke_event_handling.rs:937-982 | an item is in the started set exactly when the messages sent say so |
| `TurnEvents.LogIsCalledFor` | app-server/src/bespoke_event_handling.rs:1160-1473 | in every run, the messages sent are, in order and replies to interrupts aside, exactly what the events called for by their history: first starts, completions, notices, turn outcomes, and rollback replies that say whether the rollback succeeded |
| `TurnEvents.StateReflectsHistory` | app-server/src/bespoke_event_handling.rs:1160-1473 | started items, last error, pending and submitting rollback are what the events so far say |
| `TurnEvents.TurnsEndAsTheyShould` | app-server/src/bespoke_event_handling.rs:1411-1451 | the turn completions sent are one per ended turn, in order, failed with e exactly when e was the last turn-affecting error since the previous turn end |
| `TurnEvents.LastErrorMatches` | app-server/src/bespoke_event_handling.rs:771-814 | the stored error is the last turn-affecting one since the previous turn end |
| `TurnEvents.InterruptsInOrder` | app-server/src/bespoke_event_handling.rs:1133-1159 | the interrupt requests so far are those answered followed by those pending, in arrival order |
| `TurnEvents.AbortAnswersAllInterrupts` | app-server/src/bespoke_event_handling.rs:1133-1159 | after an abort every interrupt request so far was answered, once each and in arrival order |
| `TurnEvents.RollbackAccount` | app-server/src/bespoke_event_handling.rs:1160-1222 | the replies to a rollback request, plus one while it is pending, are its acceptances, plus one for each time an event overtook its failed submission |
| `TurnEvents.RollbacksAnsweredOnce` | app-server/src/codex_message_processor.rs:2418-2447 | every acceptance has one reply or is pending exactly when no rollback event came in front of a failed submission |
| `TurnEvents.EarlyEventRepliesTwice` | app-server/src/codex_message_processor.rs:2437-2447 | a run in which a rollback event overtakes the failed submission and the request is answered twice |
| `TurnEvents.ThreadState.OnApplyPatchApprovalRequest` | app-server/src/bespoke_event_handling.rs:186-207 | V2 sends the start of an item that was not started yet; the whole new state is the step of the state machine |
| `TurnEvents.ThreadState.OnPatchApplyBegin` | app-server/src/bespoke_event_handling.rs:937-963 | the whole new state and the messages sent are the step of the state machine for both protocol versions |
| `TurnEvents.ThreadState.CompleteFileChangeItem` | app-server/src/bespoke_event_handling.rs:1329-1355 | the whole new state and the messages sent are the step of the state machine for the completion |
| `TurnEvents.ThreadState.OnError` | app-server/src/bespoke_event_handling.rs:771-814 | the whole new state and the messages sent are the step of the state machine for an error that may or may not affect the turn |
| `TurnEvents.ThreadState.OnStreamError` | app-server/src/bespoke_event_handling.rs:815-831 | the whole new state and the messages sent are the step of the state machine for a stream error, which is not remembered |
| `TurnEvents.ThreadState.OnTurnComplete` | app-server/src/bespoke_event_handling.rs:1419-1433 | the whole new state and the messages sent are the step of the state machine for the end of a turn |
| `TurnEvents.ThreadState.OnTurnAborted` | app-server/src/bespoke_event_handling.rs:1133-1159 | the whole new state and the messages sent are the step of the state machine for an abort: the replies to all pending interrupts, then the completion |
| `TurnEvents.ThreadState.TakeTurnSummary` | app-server/src/bespoke_event_handling.rs:1411-1417 | hands out the last error and starts an empty summary |
| `TurnEvents.ThreadState.OnThreadRolledBack` | app-server/src/bespoke_event_handling.rs:1160-1222 | the whole new state and the messages sent are the step of the state machine for a rollback |
| `TurnEvents.ThreadState.OnThreadRollbackFailed` | app-server/src/bespoke_event_handling.rs:1453-1473 | the whole new state and the messages sent are the step of the state machine for a failed rollback |
| `TurnEvents.ThreadState.RequestInterrupt` | app-server/src/codex_message_processor.rs:5284-5294 | the whole new state and the messages sent are the step of the state machine for an interrupt request of either protocol version |
| `TurnEvents.ThreadState.RequestRollback` | app-server/src/codex_message_processor.rs:2418-2435 | accepts a rollback request exactly when none is pending |
| `TurnEvents.ThreadState.FinishRollbackRequest` | app-server/src/codex_message_processor.rs:2437-2447 | a failed submission clears the pending rollback and replies to the request |
| `ListThreads.ListingIsComplete` | app-server/src/codex_message_processor.rs:3571-3703 | following the cursors to the end lists the recorded threads that the caller asked for, all of them, in the lister's order, whatever the page sizes |
| `ListThreads.PagesSoFar` | app-server/src/codex_message_processor.rs:3571-3703 | at any point the pages hold exactly the rows in front of the last cursor; all pages but the last are full, and their number is bounded |
| `ListThreads.AllPages` | app-server/src/codex_message_processor.rs:3571-3703 | a client that follows the cursors to the end has every row of the lister's threads, once and in order |
| `ListThreads.EachThreadOnce` | app-server/src/codex_message_processor.rs:3650-3675 | no thread is listed twice |
| `ListThreads.WantedRowsAre` | app-server/src/codex_message_processor.rs:3651-3673 | a row is listed exactly when it is the summary of a recorded thread that was asked for |
| `ListThreads.ShownExactly` | app-server/src/codex_message_processor.rs:3651-3667 | the lister's filter and the loop's filter together show a thread exactly when its source and directory were asked for |
| `ListThreads.RowTells` | app-server/src/codex_message_processor.rs:3651-3667 | a row that comes from a file has the id and the directory of the file, and its source with the nickname and role filled in |
| `ListThreads.ListThreadsCommon` | app-server/src/codex_message_processor.rs:3571-3703 | the refill loop ends, also when the lister gives back the cursor it was given, and returns the rows of consecutive threads, at most the requested number; a cursor comes with a full page and points right behind the last thread looked at; without one nothing is left or the lister stalled there; a malformed cursor is refused |
| `ListThreads.FilterPage` | app-server/src/codex_message_processor.rs:3650-3673 | the break in the middle of a page skips nothing |
| `ListThreads.Refill` | app-server/src/codex_message_processor.rs:3614-3676 | a page of the lister adds the rows of its threads, no more than were missing |
| `Filters.FiltersTogether` | app-server/src/filters.rs:6-82 | the sources handed to the lister and the filter on its results keep a thread exactly when one of its kinds was asked for, where asking for none means the interactive ones |
| `Filters.ListerHoldsNothingBack` | core/src/rollout/list.rs:701-708 | the lister never holds back a thread that was asked for |
| `Filters.MatchesExactly` | app-server/src/filters.rs:53-82 | a filter matches a source exactly when it names one of the kinds the source goes by |
| `Filters.InteractiveSourcesAre` | app-server/src/filters.rs:33-49 | without a kind that needs the second filter, the sources handed to the lister are exactly the ones asked for, and never the empty list that would mean all |
| `Filters.AllowedExactly` | app-server/src/filters.rs:6-49 | the lister is asked for everything exactly when some kind is no interactive one, and else for exactly what is wanted |
| `Filters.MetadataKeepsKinds` | app-server/src/codex_message_processor.rs:6913-6940 | filling in a spawned agent's nickname and role does not change what kinds the source goes by |
| `Filters.MetadataExactly` | app-server/src/codex_message_processor.rs:6913-6940 | only spawned threads change, and of them only nickname and role: a given one wins, else the old one stays |
| `LoadedThreads.PagedToTheEnd` | app-server/src/codex_message_processor.rs:2576-2625 | paging to a null cursor returns strictly ascending ids and every id that was loaded throughout, even when others, the cursor's own included, come and go between pages |
| `LoadedThreads.PagesSoFar` | app-server/src/codex_message_processor.rs:2576-2625 | at any point the pages ascend, lie in front of the last cursor and hold every id up to it that was loaded all along |
| `LoadedThreads.NothingInvented` | app-server/src/codex_message_processor.rs:2576-2625 | what is returned was loaded when its page was made |
| `LoadedThreads.ThreadLoadedList` | app-server/src/codex_message_processor.rs:2576-2626 | a page is ascending, behind the cursor, leaves out nothing up to its end, is no longer than the limit, and has a cursor exactly when more is loaded; an empty list answers before the cursor is looked at |
| `LoadedThreads.BinarySearch` | app-server/src/codex_message_processor.rs:2609-2612 | finds the id or the place where it would be |
| `LoadedThreads.StartBehind` | app-server/src/codex_message_processor.rs:2595-2615 | a page starts at the first id behind the cursor, whether or not the cursor's own thread is still loaded |
| `LoadedThreads.SortedIds` | app-server/src/codex_message_processor.rs:2593-2593 | sorting keeps the ids and makes them ascend |
| `LoadedThreads.EffectiveLimit` | app-server/src/codex_message_processor.rs:2617-2617 | a positive limit is the limit and zero counts as one; without one it is the number of loaded threads while that fits 32 bits |
| `SeekSequence.NothingFoundExactly` | apply-patch/src/seek_sequence.rs:12-110 | a non-empty pattern is not found exactly when no position in range matches even after normalising |
| `SeekSequence.FoundIsFirstOfStrictest` | apply-patch/src/seek_sequence.rs:12-110 | a position is the result exactly when it is the first match in range of the strictest pass that has one: exact, without trailing blanks, without surrounding blanks, normalised |
| `SeekSequence.PassesCoarsen` | apply-patch/src/seek_sequence.rs:34-107 | each pass forgets at least what the stricter ones forget: exact, trailing blanks, surrounding blanks, typography |
| `SeekSequence.NormaliseTwice` | apply-patch/src/seek_sequence.rs:76-94 | normalising is idempotent |
| `SeekSequence.NormalCharExactly` | apply-patch/src/seek_sequence.rs:76-94 | exactly seven dashes, four single quotes, four double quotes and thirteen spaces become their ASCII form, and no other character changes |
| `SeekSequence.NormalisedBeforehand` | apply-patch/src/seek_sequence.rs:76-107 | the last pass sees no difference between texts and their normalised forms, and is the exact pass on the latter |
| `SeekSequence.EofFindsOnlyTheEnd` | apply-patch/src/seek_sequence.rs:29-33 | in end-of-file mode the result is the one position where the pattern ends the file, exactly when it matches there |
| `SeekSequence.DocumentedExactly` | apply-patch/src/seek_sequence.rs:5-5 | the code agrees with the documented fallback exactly when the end matches or nothing from the start position on does |
| `SeekSequence.EofDoesNotFallBack` | apply-patch/src/seek_sequence.rs:5-33 | a file and a pattern on which the code and its documentation differ |
| `SeekSequence.EofMayFindBeforeStart` | apply-patch/src/seek_sequence.rs:29-33 | the position found may lie in front of the start position |
| `SeekSequence.SeekSequence` | apply-patch/src/seek_sequence.rs:12-110 | the early returns and the four passes compute the search that the theorems are about |
| `SeekSequence.Pass` | apply-patch/src/seek_sequence.rs:41-52 | the outer loop of a pass returns the first matching position |
| `SeekSequence.MatchesHere` | apply-patch/src/seek_sequence.rs:42-48 | the inner loop with its flag decides whether every line of the pattern matches at a position |

## Left out

- JSON trees are values: in-place updates of a tree are modelled as new trees; trees are owned, so no aliasing is lost. Objects keep insertion order and removal swaps in the last entry, as serde_json does with `preserve_order`; only `tui/Cargo.toml` asks for that feature, so it holds for builds of the whole workspace, and a build without it keeps entries sorted by key. Numbers are their printed text.
- Upper-casing in `to_pascal_case` is modelled for ASCII. It is also called on method and type literals and on property names; for one whose word starts with a character outside ASCII the model's title differs from the code's.
- The scanner's i32 depths are unbounded integers, and text is indexed by character instead of by byte.
- `prune_unused_type_imports`, a substring test on import lines; file reading, writing, formatting and index generation around the filters.
- The field filter of `filter_experimental_fields_in_ts_file`: its splitting and joining is covered by the scanner's theorems, its search for the interface body is not.
- `remove_experimental_method_type_definitions_map`: removing keys from a map.
- Bundle.NamespaceResolves: says nothing about references of root definitions, because the code rewrites forced references only in a schema's top value; what becomes of those is in `BundleForced`.
- TypeAlias.MethodOfRenderedArm: is about the arms that are generated, whose first field is the quoted method; for other arms, and for their names without or with single quotes, the filter is modelled without a theorem about which method it reads.
- TypeAlias.FilterClientRequestTs: leaves out the last step of the filter, which drops import lines whose type is not used.
- Concurrency inside a handler: a lock that is released before a message is sent is not modelled; every handler is one step.
- TurnEvents.RollbackAccount: client requests are handled one at a time, as the message processor awaits each of them.
- WatchStatus.StreamIsCurrent: updating the facts and publishing the notification are one step; in the code the lock is released in between.
- ListThreads.ListThreadsCommon: assumes that the lister serves one fixed list and, when it returns no threads, no cursor or the one it was given; a lister that alternates between two cursors would keep the loop running.
- ListThreads.ListingIsComplete: assumes besides that the lister never gives back the cursor it was given.
- Messages of a thread are those handed to its sender; with nobody connected the sender drops them.
- A thread state object that was removed from the manager while a task still holds it: it no longer affects the manager.
- TurnEvents.AbortAnswersAllInterrupts: is about one thread state object. Archiving a thread removes the object, and its pending interrupts and rollback are then dropped unanswered; the runs have no such event.
- Guards, removal markers in the status log and cancel signals are ghost state: the code has them as objects, not as data.
- Event kinds of a turn that touch none of the modelled state: token counts, plans, diffs, collaboration and tool items.
- `RolloutRecorder`, `parse_cursor` and the state database: assumed to serve a fixed list of threads and to keep the contract stated in `ListThreads.Serves`; a listing that fails ends the request with an internal error. The hard scan limit inside the lister can break that contract and is not part of this model.
- The sort key, the archived flag and the model provider filter are inside the assumed lister.
- Directories are compared as strings; Rust compares paths by component.
- `paginate_apps`, `list_models` and other offset paging: the same slicing with easier claims.
- The initialize handshake, routing of envelopes to connections, config mapping, login and dynamic tools.
