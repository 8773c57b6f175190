# A verified model of the net_code_ server's state machines

This project models, in Dafny, the parts of the net_code_ server whose correctness depends on more
than one function at a time, and proves what their callers rely on:

- **User document store** (`Json`, `JsonCodec`, `Query`, `Selectors`, `DocumentStore`,
  `StoreInvariants`, `StoreSteps`, `StoreLaws`, `StoreRuns`, `StoreQuota`, `QuotaWraps`, `Collection`): a write-through cache over one file per document, with a
  byte quota and the rule that a rejected write makes the next operation start over from disk.
- **`$db` paths** (`DbPaths`, `DbLens`): setting, reading and deleting along a path of keys that
  fills in objects and nulls on its way.
- **Document ids** (`IdAllocator`): ids issued from reserved blocks, with a crash possible anywhere.
- **Module ids** (`ModuleId`): the in-place CommonJS resolver against a resolver over a stack of
  terms.
- **Value slots** (`ValueStack`): the allocator of Duktape stack slots, with lazy popping, moves and
  compaction.
- **Script memory** (`MemorySandbox`): the accountant around malloc, realloc and free.
- **Chat** (`Chat`, `ChatDelivery`, `ChatStore`, `ChatLaws`): bounded histories, and delivery by polls that work
  one transaction per message from stale lists of ids.
- **UI packets and labels** (`UiPacket`, `UiStack`, `UiCalls`, `LabelHash`): the columnar packet and its
  decoder, the calls that fix each element type's arity, and the table-driven CRC-32 of labels.
- **Accounts and running scripts** (`Accounts`, `RunGuard`): who owns which names and Steam id, and
  which run of an account may block.

Each component has the same three layers. Functions say what an operation does to a state; methods
and classes have the program's own loops, fields and buffers and are proved equal to those functions;
lemmas prove what the functions keep over whole runs or undo of each other. `Sums` and `Optional` hold
the helpers that components share: sums over maps, and values that may be missing.

## Where the code falls short

Some properties one would want are false of the code. The model keeps the code as it is, shows an
input, and proves exactly when the property holds.

- **Memory and disk agree** unless a `$db` call throws after it has opened a document or filled in
  part of its path (`StoreRuns.RunCoherent`, both directions; example
  `StoreRuns.ThrownCallLeavesADocument`).
- **The quota** is compared in an `int`, so a total that does not fit can be let through
  (`StoreInvariants.OverQuotaOnlyByWrapping`, both directions). `$db[0].a = []` and then
  `$db[0].a[2147483640] = 1`, which fills the array with nulls, does it
  (`QuotaWraps.QuotaCanBePassed`). As long as no operation is about to write a document of nearly
  2 GiB, the quota holds in every state of every run (`StoreQuota.QuotaNeverExceeded`).
- **Reading beside a set path** gives what it gave before, unless the collection was empty, when
  everything read as undefined, or the path is that of a new document's id
  (`DbLens.OtherReadsAfterSet`, both directions; example `DbLens.UndefinedBecomesNull`).
- **The 64 MB limit of a script** holds for every size below 2^64 - 8. From there on the header wraps
  the size that malloc is asked for to a few bytes, and a request whose sum with the total passes 2^64
  as well is not caught (`MemorySandbox.SafeIffNoWrap`, both directions; example
  `MemorySandbox.WrappingRequestSlipsThrough`).
- **At most one delivery** holds for a recipient list without repeats. A user listed twice, with one
  place deleted between two polls, gets the message twice
  (`ChatDelivery.ListedTwiceDeliveredTwice`, both directions).
- **Value slots** stay owned by one object unless a moved-from object is assigned to, packed or
  cleared (`ValueStack.RunSound`, both directions; example `ValueStack.NullAfterMoveFrees`).
- **The guard of a running script** is exact unless a forced run clears the entry of a blocking one
  (`RunGuard.RunsExact`, both directions; example `RunGuard.ForcedRunBreaksTheGuard`).
- **The packet** is lossless exactly for lists in which each type has one arity
  (`UiPacket.DecodesExactly`; without it two lists share a packet, `UiPacket.MixedAritiesCollide`),
  which every stack built by the UI calls has (`UiStack.RunsAreLossless`).
- **Ids are not dense**: each restart passes over up to 1024 of them (`IdAllocator.IdsAreFresh`).

## Model

| member | source | states |
|---|---|---|
| StoreRuns.RunCoherent | db_storage_backend.cpp:445-683 | Over every run of inserts, updates, searches, removals and `$db` calls with restarts and rejected writes: in every state the imported documents, by `_cid`, are the decoded files and the sizes are the file lengths, if and only if no `$db` call throws after opening a document or filling in its path |
| StoreRuns.StepKeeps | db_storage_backend.cpp:513-775 | A valid state accepts every operation with a correct listing, and the operation keeps ids distinct and already issued, files named by the ids they hold and the sizes; it keeps memory and disk in step if and only if it is not a call that spoils them; a rejected write clears the imported mark |
| StoreRuns.ThrownCallLeavesADocument | duk_object_functions.cpp:215-320 | Assigning a number to `$db[0]` of an empty collection throws and leaves a document in memory that no file holds |
| StoreRuns.RejectionReimports | db_storage_backend.cpp:462-471 | After a rejected write the next operation starts from exactly what is on disk; a rejected insert leaves no trace there |
| StoreRuns.RunSound | db_storage_backend.cpp:451-609 | In every state of every run from an empty disk, derived step by step from it: the files decode to documents named after their ids, ids were already issued, documents have distinct ids, every file has a document, and sizes are file lengths |
| StoreRuns.RunGoesOn | db_storage_backend.cpp:513-609 | Every run can go on with any operation: a right listing exists, and none is refused because a file cannot be read |
| StoreQuota.QuotaNeverExceeded | db_storage_backend.cpp:451-509 | Over every run from an empty disk in which no operation is about to write a document of more than 2 GiB less the quota, as computed from its arguments and the state before it, the files never exceed the quota: also after rejections, partial updates, deletions, whole-collection assignment, restarts and imports |
| StoreQuota.StepFits | db_storage_backend.cpp:460-471 | One step that is about to write only documents of ordinary size lets no over-quota total through |
| QuotaWraps.QuotaCanBePassed | db_storage_backend.cpp:460-471 | There are a lawful library and a run of two calls, `$db[0].a = []` and `$db[0].a[2147483640] = 1`, whose second call returns and leaves files over the quota |
| QuotaWraps.SecondCall | duk_object_functions.cpp:229-330 | With any lawful library that encodes the null-filled document in more than INT_MAX and at most 2^32 bytes plus the quota, that call is accepted |
| QuotaWraps.InsertIsLetThrough | db_storage_backend.cpp:611-631 | So is the insert of such a document in an empty collection |
| QuotaWraps.OnlyDocument | db_storage_backend.cpp:451-496 | The only document is written when its size fits the quota, and when its size is misread as one that does |
| StoreInvariants.OverQuotaOnlyByWrapping | db_storage_backend.cpp:460-471 | A write is let through over the quota if and only if its total exceeds INT_MAX and wraps to within the quota; otherwise it is accepted exactly when the total fits |
| StoreInvariants.WriteThrough | db_storage_backend.cpp:451-496 | An accepted write brings its document in step with disk and touches no other; a rejected one changes no file and clears the imported mark |
| StoreSteps.ImportKeeps | db_storage_backend.cpp:513-609 | Importing a collection that is not imported makes memory the decoded files, whatever order they are listed in; an imported one is left alone |
| StoreSteps.InsertKeeps | db_storage_backend.cpp:611-631 | An insert appends a document under a fresh id and writes it through, or is rejected and leaves the files unchanged |
| StoreSteps.UpdateFromKeeps | db_storage_backend.cpp:651-683 | An update, finished or cut short by a rejected write, keeps the invariant, the documents' positions and their ids |
| StoreSteps.UpdateManyWrites | db_storage_backend.cpp:668-683 | update_many is rejected exactly at the first matching document whose write takes the total past the check, and leaves on disk the writes before that one and no others; without such a document it has revised exactly the matching documents |
| StoreSteps.UpdateOneWrites | db_storage_backend.cpp:651-666 | update_one revises exactly the first match, in memory and, unless its total fails the check, on disk; without a match it changes nothing |
| StoreLaws.UpdateManyRevises | db_storage_backend.cpp:668-683 | After a finished update_many every key of an object-valued $set but "_cid" reads in each matching document as given there, every other key as before, and every other document is as before |
| StoreLaws.UpdateOneRevises | db_storage_backend.cpp:651-666 | And after update_one in the first matching document and no other, in memory and on disk |
| StoreLaws.UpdateManyOnDisk | db_storage_backend.cpp:668-683 | After a rejected update_many the files of the matching documents before the rejected one decode to revised documents, and the other files are as before |
| StoreLaws.InsertReads | db_storage_backend.cpp:611-631 | An insert that returns adds one document, with the new id and otherwise reading as given, and its file; it throws exactly for what is neither an object nor null |
| StoreLaws.RemoveLeaves | db_storage_backend.cpp:756-775 | A removal leaves exactly the documents that do not match, in order, and exactly their files |
| StoreLaws.SetWholeLeaves | duk_object_functions.cpp:267-298 | `$db = v` leaves one document, with a new id and otherwise reading as v, and the old files are gone; anything but an object throws and changes nothing |
| StoreLaws.SetThrowsUnless | duk_object_functions.cpp:181-331 | Assignment along a path throws unless it starts at a document that is there or comes next, names no "_cid" below, the write goes through, and a whole document is assigned an object |
| StoreLaws.DeleteDocumentLeaves | duk_object_functions.cpp:367-376 | `$db[i].$delete()` takes out document i and its file and no other; later documents move up by one; at the end no document changes |
| StoreLaws.DeleteWholeLeaves | duk_object_functions.cpp:343-352 | `$db.$delete()` leaves no document, no size and no file |
| StoreLaws.DeleteThrowsUnless | duk_object_functions.cpp:335-408 | Deletion along a path throws unless it starts and goes through likewise and an array has the last key as a position |
| StoreLaws.ToIntIs | db_storage_backend.cpp:460-460 | A size_t stored in an int is the one int congruent to it modulo 2^32 |
| StoreRuns.StepsAreOperations | db_storage_backend.cpp:513-775 | The steps of a run are these operations on the imported collection; a search changes nothing else, and a restart keeps the files alone |
| StoreSteps.UpdateManyTwice | db_storage_backend.cpp:668-683 | With no rejection, running update_many twice with the same selector and update leaves what running it once leaves, also when the update changes which documents match |
| StoreSteps.RemoveKeeps | db_storage_backend.cpp:756-775 | A removal takes exactly the matching documents out of memory, sizes and disk, and keeps memory and disk in step |
| StoreSteps.SetKeeps | duk_object_functions.cpp:259-332 | Assignment along a path keeps the invariant, and keeps memory and disk in step if and only if it does not throw after changing memory |
| StoreSteps.DeleteKeeps | duk_object_functions.cpp:335-408 | The same for deletion along a path |
| Query.UpdateTwice | db_storage_backend.cpp:235-265 | An update applied to its own result changes nothing, and "_cid" cannot be updated |
| Selectors.LessSortsFirst | db_storage_backend.cpp:120-132 | A document that matches {key: {$lt: v}} sorts by that key before one that has the key and does not |
| Selectors.GreaterSortsFirstDownwards | db_storage_backend.cpp:134-147 | And one that matches {$gt: v} sorts before one that does not when sorting downwards |
| Selectors.Complements | db_storage_backend.cpp:120-202 | On documents with the key $gte is the complement of $lt, $lte of $gt and $ne of $eq |
| Selectors.ExactValue | db_storage_backend.cpp:120-202 | A document holding exactly v matches $eq, $lte and $gte with v and none of $ne, $lt and $gt |
| Selectors.Equality | db_storage_backend.cpp:149-161 | $eq, and a value that names no operator, match exactly the documents that hold the value under the key |
| Selectors.Existence | db_storage_backend.cpp:96-118 | $exists tells whether the key is there; without the key only $exists false matches, and no comparison does |
| Selectors.ExistsByNumber | db_storage_backend.cpp:102-116 | A number other than zero asks for the key and zero for its absence |
| Selectors.FirstOperatorDecides | db_storage_backend.cpp:96-202 | Of several operators under one key the first in the order $exists, $lt, $gt, $eq, $ne, $lte, $gte decides |
| Selectors.AllKeys | db_storage_backend.cpp:91-209 | A selector of several keys matches what each of its keys matches |
| Selectors.OtherSelectors | db_storage_backend.cpp:88-89 | A selector that is not an object matches its equals |
| Selectors.SearchPicks | db_storage_backend.cpp:634-648 | A search picks exactly the documents at matching positions, each once and in order, and a removal keeps exactly the others in order |
| Selectors.SortedByValue | db_storage_backend.cpp:717-723 | Sorted results go upwards by the values under the key for direction 1 and downwards otherwise |
| Selectors.ProjectionKeeps | db_storage_backend.cpp:267-308 | A projection keeps exactly the flagged fields that the document has, with their values |
| Selectors.EmptyProjection | db_storage_backend.cpp:267-285 | An empty projection, or none, keeps the document; one that keeps no field gives null |
| Selectors.Flags | db_storage_backend.cpp:289-299 | A flag is true, or a number of at least 1 or at most -1, and nothing else |
| Selectors.LimitIs | db_storage_backend.cpp:737-749 | A limit of k lets k results through, or all if there are fewer or k is negative |
| Query.PlaceSorted | db_storage_backend.cpp:709-727 | Placing one document keeps a list sorted by the sort key and direction (stands for std::sort) |
| Query.Arrange | db_storage_backend.cpp:685-754 | The sorted, projected and limited result: a permutation of the matches before the limit, and no match left out belongs before one kept; a missing sort key is an exception |
| Query.TruncTowardZero | db_storage_backend.cpp:743-743 | The cast of a limit to int is the nearest whole number on the side of zero |
| JsonCodec.SomeLibIsValid | db_storage_backend.cpp:445-448 | The laws asked of the JSON library, that decoding inverts encoding, no encoding is empty and the order is a strict weak one, can be met: a codec is written out and proved |
| JsonCodec.EncodingEnds | db_storage_backend.cpp:445-448 | Its encodings end where they end, so that no two documents share one |
| Collection.Collection.GetTotalSize | db_storage_backend.cpp:342-354 | The loop sums the sizes on record |
| Collection.Collection.Flush | db_storage_backend.cpp:445-496 | Writes a document through, or rejects it, as the specification of a write says |
| Collection.Collection.DiskErase | db_storage_backend.cpp:498-509 | Takes a document's file and size away |
| Collection.LoadFiles | db_storage_backend.cpp:540-602 | The import loop yields the decoded files and their lengths |
| Collection.Collection.ImportCollection | db_storage_backend.cpp:513-609 | Imports once, and not again while the mark is set |
| Collection.Collection.InsertOne | db_storage_backend.cpp:611-631 | Equals the specified insert, taking its id from the allocator |
| Collection.Collection.UpdateDocs | db_storage_backend.cpp:651-683 | The update loop, for one or for many, equals the specified update |
| Collection.Collect | db_storage_backend.cpp:633-648 | The loop over matches collects exactly the documents the selector picks, in order |
| Collection.Collection.FindMany | db_storage_backend.cpp:685-754 | Returns the projections of a sorted, limited choice among exactly the matching documents, and changes nothing but the import |
| Collection.KeepRest | db_storage_backend.cpp:756-775 | The removal loop keeps exactly the documents the selector does not pick |
| Collection.Collection.RemoveMany | db_storage_backend.cpp:756-775 | Equals the specified removal |
| Collection.GetLastJs | duk_object_functions.cpp:204-256 | The walk along a path fills in and reaches what the recursive walk does |
| Collection.Collection.SetFromRequest | duk_object_functions.cpp:259-332 | Equals the specified assignment, for the whole collection, one document or a part of it |
| Collection.Collection.DeleteFromRequest | duk_object_functions.cpp:335-408 | Equals the specified deletion |
| DbLens.ReadAfterSet | duk_object_functions.cpp:137-332 | After a returned set at a path of two or more keys, reading the path gives the value set |
| DbLens.ReadDocumentAfterSet | duk_object_functions.cpp:300-331 | After a returned `$db[i] = v`, reading `$db[i]` gives v with the id the document had, or a new one, and no other document changes |
| DbLens.OtherReadsAfterSet | duk_object_functions.cpp:137-435 | A path that diverges from it reads as before if and only if the collection was not empty and the path is not that of the id of a document that the call opened; what the exceptions read is stated |
| DbLens.UndefinedBecomesNull | duk_object_functions.cpp:430-433 | After `$db[0].a = v` in an empty collection, `$db[0].b` reads null, and undefined before |
| DbLens.LaterSetWins | duk_object_functions.cpp:259-332 | A later set at the same path leaves the documents that it alone would have left |
| DbLens.SetKeepsIds | duk_object_functions.cpp:259-332 | Every existing document keeps its position and its `_cid`, whether the call returns, is rejected or throws |
| DbLens.ReadsAfterDelete | duk_object_functions.cpp:335-408 | After a returned delete inside a document, one that the call opens included, one reads below the parent what the parent without the child holds, and elsewhere as once the document was opened; the document stays on disk |
| DbLens.WithoutReads | duk_object_functions.cpp:380-405 | Deleting a key leaves an object's other keys; deleting an array position moves the later ones up by one |
| DbPaths.VivifyReaches | duk_object_functions.cpp:204-256 | The walk reaches its end exactly when a write there goes through and no key is "_cid" |
| DbPaths.SetAfterVivify | duk_object_functions.cpp:204-332 | Filling in on the way and then assigning is the same as writing along the path |
| Json.GetAfterSet | duk_object_functions.cpp:137-171 | Lens law on JSON values: reading a path just written gives the value |
| Json.SetAfterSet | duk_object_functions.cpp:183-256 | Lens law: of two writes at one path the second wins |
| Json.OtherAfterSet | duk_object_functions.cpp:183-256 | Lens law: a write changes no path that diverges from it |
| Json.SetOfGet | duk_object_functions.cpp:137-171 | Lens law: writing back what a path reads changes no reading |
| Json.IndexOfDecimal | duk_object_functions.cpp:147-160 | A key that is a number written out names that position if it fits an int, and is an error if not |
| Json.ReadOneKey | duk_object_functions.cpp:143-170 | One key reads the field of an object or the numbered element of an array, null where there is none, and an error in a plain value |
| IdAllocator.IdsAreFresh | db_storage_backend.cpp:430-442 | Over any calls, crashes at any point and restarts, ids are issued in strictly increasing order, and the k-th one is at most 1024 too high for every earlier restart |
| IdAllocator.RestartSkipsAtMostOneBlock | db_storage_backend.cpp:797-822 | A crash and the restart after it go back over no id and pass over at most 1024 |
| IdAllocator.RunKeepsValid | db_storage_backend.cpp:430-442 | In every state the reserved block on disk lies above every id issued |
| IdAllocator.Store.constructor | db_storage_backend.cpp:797-822 | Start-up: creates the file at zero or continues from it |
| IdAllocator.Store.GetNextId | db_storage_backend.cpp:430-442 | One call is the sequence of atomic steps: reserve on disk if needed, then issue |
| ModuleId.ResolveModuleId | duk_module_duktape.cpp:34-188 | The program succeeds, fails and answers (id and last component) exactly as the term-stack resolver on every request and requiring module |
| ModuleId.ResolveInPlace | duk_module_duktape.cpp:86-186 | The reader and writer loop on the shared buffer computes the term-stack walk; it reads nothing past the terminator and changes nothing from it on |
| ModuleId.CopyTerm | duk_module_duktape.cpp:146-161 | Copies one term and its slash without overwriting an unread byte, the writer staying at or behind the reader |
| ModuleId.TakeTerm | duk_module_duktape.cpp:145-173 | A term that is an identifier is pushed, and ends the walk if it is the last |
| ModuleId.GoUp | duk_module_duktape.cpp:116-140 | ".." pops one term |
| ModuleId.Backtrack | duk_module_duktape.cpp:127-138 | Moving the writer back over one component pops the last term written |
| ModuleId.EatSlashes | duk_module_duktape.cpp:164-172 | A run of slashes separates like one |
| ModuleId.ResolvedIsCanonical | duk_module_duktape.cpp:63-182 | A resolved id is canonical and no longer than the input: non-empty terms, none starting with a period, single slashes between them, none at the ends |
| ModuleId.ResolveCanonical | duk_module_duktape.cpp:63-182 | A canonical id that fits the buffer resolves to itself from any module |
| ModuleId.ResolveIsIdempotent | duk_module_duktape.cpp:63-182 | Resolving a resolved id again, from any module, returns it and its last component unchanged |
| ModuleId.RelativeStartsAtParent | duk_module_duktape.cpp:68-82 | A relative request is walked from the requiring module's parent, and is rejected exactly when the joined input does not fit |
| ModuleId.SiblingRequest | duk_module_duktape.cpp:68-182 | "./x" required from canonical module m resolves to m's parent joined with x, if and only if the input fits the buffer |
| ModuleId.ParentRequest | duk_module_duktape.cpp:68-182 | "../x" required from module up/last resolves to the parent of up joined with x if and only if the input fits |
| ModuleId.ParentOfTopFails | duk_module_duktape.cpp:116-125 | From a module of one term "../x" fails |
| ModuleId.AbsoluteIgnoresModule | duk_module_duktape.cpp:73-77 | A request that does not start with a period resolves alike from every module |
| ModuleId.BareRelative | duk_module_duktape.cpp:73-140 | Without a requiring module "./x" is x, if it fits, and "../x" fails |
| ModuleId.LastTermIsProper | duk_module_duktape.cpp:107-144 | An id that ends in "/." or "/.." is an error |
| ValueStack.RunSound | argument_object_duk.cpp:95-342 | Over every sequence of creation, copy, move, assignment, destruction and packing: each object owns a slot in use of its own, every slot in use has an owner, the height is one past the highest of them and nobody else's content changes, if and only if no moved-from object is misused |
| ValueStack.StepSound | argument_object_duk.cpp:95-342 | The same for one operation, both directions |
| ValueStack.FreeingIsExact | argument_object_duk.cpp:59-93 | Freeing a slot takes exactly that slot out of use, pops no slot in use, and leaves the height one past the last slot in use |
| ValueStack.PushIsUsed | argument_object_duk.cpp:300-309 | A fresh slot is in use: it inherits no mark from an earlier slot |
| ValueStack.PackingIsExact | argument_object_duk.cpp:852-883 | Packing moves a value down only into a free slot, keeps its content and every other used slot, and makes the height its new index plus one |
| ValueStack.FreshTargetsAreSafe | argument_object_duk.cpp:208-350 | No operation whose target was not moved from is a misuse |
| ValueStack.HeightIsOwned | argument_object_duk.cpp:59-93 | In a sound state the stack ends exactly at the highest owned slot |
| ValueStack.MovedContent | argument_object_duk.cpp:316-349 | A move hands over the slot with its content, also when the target gives up a slot of its own |
| ValueStack.CopiedContent | argument_object_duk.cpp:238-309 | A copy, constructed or assigned, holds the content of its source in a slot of its own, and the source keeps slot and content |
| ValueStack.ContentIsHeld | argument_object_duk.cpp:95-137 | A value made from content, or assigned it, holds that content |
| ValueStack.PackedContent | argument_object_duk.cpp:852-883 | Packing an object changes where its content is, not what it is |
| ValueStack.PacksWhen | argument_object_duk.cpp:852-871 | pack moves a value exactly when it is at the top with two freed slots right below it above slot 0, to the lowest of the freed slots there |
| ValueStack.NullAfterMoveFrees | argument_object_duk.cpp:208-236 | Clearing a moved-from object pops the slot of the object it was moved to |
| ValueStack.ValueContext.Free | argument_object_duk.cpp:59-93 | The mark-and-pop loop leaves what freeing specifies |
| ValueStack.CountPoppable | argument_object_duk.cpp:78-92 | The loop counts the marked slots at the top |
| ValueStack.FindGap | argument_object_duk.cpp:860-871 | The loop finds the lowest free slot below the value |
| ValueStack.JsValue.Pushed | argument_object_duk.cpp:300-309 | A value made from content owns the new top slot |
| ValueStack.JsValue.CopiedFrom | argument_object_duk.cpp:300-309 | The copy constructor duplicates the content of the source slot to a slot of its own |
| ValueStack.JsValue.AssignCopy | argument_object_duk.cpp:238-271 | Copy assignment pushes the content of the source and assigns it; two empty values stay empty |
| ValueStack.JsValue.MovedFrom | argument_object_duk.cpp:316-328 | The move constructor takes the slot over and releases the source |
| ValueStack.JsValue.AssignContent | argument_object_duk.cpp:95-137 | Assignment replaces the slot's content, or pushes a slot if there is none |
| ValueStack.JsValue.AssignNull | argument_object_duk.cpp:208-236 | Clearing frees the slot |
| ValueStack.JsValue.AssignMove | argument_object_duk.cpp:330-349 | Move assignment frees the target's slot and takes the source's; a released source is an error |
| ValueStack.JsValue.Destroy | argument_object_duk.cpp:424-430 | The destructor frees the slot unless it was released |
| ValueStack.JsValue.Pack | argument_object_duk.cpp:852-883 | Equals the specified packing |
| MemorySandbox.RunExact | memory_sandbox.hpp:58-182 | Over every run against a heap that cannot hand out more than the address space: the total equals the bytes of the live blocks and stays within 64 MB in every state, if and only if no request is served whose size wraps both with the header and in the sum its guard compares |
| MemorySandbox.StepExact | memory_sandbox.hpp:58-182 | The same for one request, both directions; a returned pointer means a positive size and an answer of the C heap |
| MemorySandbox.SafeIffNoWrap | memory_sandbox.hpp:69-133 | A request keeps the total exact and within 64 MB whatever the C heap answers, if and only if it is not at least 2^64-8 with a sum past 2^64: a test on the size and the total alone |
| MemorySandbox.StepBytes | memory_sandbox.hpp:58-182 | A granted request changes the live bytes by its size less the block it returns; a failed one, a failed realloc included, changes nothing |
| MemorySandbox.GrantedWhen | memory_sandbox.hpp:58-182 | A request is granted exactly when its size is above zero, the C heap answers and the new total is within 64 MB or wraps; the block is then at the answer with its size, the one given back is gone and the others stay; a refused one changes no block |
| MemorySandbox.RunConserves | memory_sandbox.hpp:58-182 | Whatever the sizes, the total is the live bytes modulo 2^64 |
| MemorySandbox.OrdinarySizesAreSafe | memory_sandbox.hpp:69-163 | Over every run whose sizes are below 2^64-8, the total is exact and within 64 MB in every state |
| MemorySandbox.WrappingRequestSlipsThrough | memory_sandbox.hpp:69-84 | After 64 live bytes a request of 2^64-8 passes the guard, asks malloc for 0 bytes, and leaves a total of 56 |
| MemorySandbox.NoEmptyBlocks | memory_sandbox.hpp:64-67 | In every state of a run every live block has at least a byte |
| MemorySandbox.Sandbox.Alloc | memory_sandbox.hpp:58-89 | Equals the specified allocation |
| MemorySandbox.Sandbox.Realloc | memory_sandbox.hpp:91-166 | Equals the specified reallocation: grow, shrink, release at size zero, allocate for a null block |
| MemorySandbox.Sandbox.Free | memory_sandbox.hpp:168-182 | Equals the specified release |
| Chat.OneClassEach | chat_channels.cpp:272-306 | Every channel name is in exactly one of the three classes or none |
| Chat.Pruned | chat_channels.cpp:8-28 | Pruning keeps the last 100 ids and removes exactly the messages of the others |
| Chat.PostMessages | chat_channels.cpp:30-141 | A post stores its message unsent to all its recipients, and of the others loses exactly those that leave the history |
| Chat.PostHistories | chat_channels.cpp:30-141 | After a post the channel's history is the last 100 ids of everything ever posted there, in order; other histories stay |
| Chat.PostKeepsValid | chat_channels.cpp:8-141 | Posts keep: at most 100 ids a history, the most recent in posting order, and the stored messages are exactly the ids in the histories, each in one history |
| ChatDelivery.DeliveredAtMostAsListed | chat_channels.cpp:180-439 | In every state of every interleaving of posts, prunes, poll visits and deletions, a message has reached a user at most as often as its list named the user |
| ChatDelivery.StepKeeps | chat_channels.cpp:30-439 | Every transaction keeps deliveries made plus places still open within the places posted, flags aligned with recipients, and the histories valid |
| ChatDelivery.PrunedStaysAway | chat_channels.cpp:8-28 | No later transaction brings a pruned message back |
| ChatDelivery.ListedTwiceDeliveredTwice | chat_channels.cpp:180-225 | Post, poll, delete and poll deliver twice to a user if and only if the list named the user twice |
| ChatDelivery.PollIdsExact | chat_channels.cpp:308-355 | A poll over distinct ids returns exactly the due ones, leaves none due, and touches no other user or id |
| ChatDelivery.PollAlone | chat_channels.cpp:308-439 | A poll that nothing interrupts returns each undelivered message of its channel class exactly once and no other |
| ChatLaws.PostIsDelivered | chat_channels.cpp:30-355 | The next poll of the channel class returns a message just posted to exactly the users on its list, and polls of other classes to nobody |
| ChatLaws.ChannelClasses | chat_channels.cpp:272-306 | Names with "@" are polled as tells, with "^" as notifications, all others and "$$local" as chat |
| ChatLaws.HundredInHistory | chat_channels.cpp:8-28 | A history holds the last hundred ids posted, or all if they are fewer |
| ChatLaws.DeletionLeaves | chat_channels.cpp:180-225 | Deleting notifications takes exactly the first place of the user off every stored message, keeps texts and channels, leaves what is due to others, and leaves nothing due to a user who was listed once |
| ChatStore.ChatServer.PruneChatHistory | chat_channels.cpp:8-28 | The pruning loop keeps the last 100 ids and drops the messages of the rest |
| ChatStore.ChatServer.SayInLocal | chat_channels.cpp:30-54 | Posts in "$$local" to the given users |
| ChatStore.ChatServer.SayInChannel | chat_channels.cpp:56-82 | Posts to the users of an existing channel, and refuses a missing one |
| ChatStore.ChatServer.TellTo | chat_channels.cpp:84-112 | Posts to one user |
| ChatStore.ChatServer.CreateNotifTo | chat_channels.cpp:114-141 | Posts a notification from "$core" to one user |
| ChatStore.ChatServer.VisitMessage | chat_channels.cpp:325-348 | One transaction of a poll: tells whether the message was due and marks it delivered |
| ChatStore.ChatServer.GetAndUpdate | chat_channels.cpp:308-439 | The poll loops return the messages of the due ids, all from the class asked for |
| ChatStore.ChatServer.DeleteNotifsFor | chat_channels.cpp:180-225 | The deletion loops strike the user's first place on every message |
| UiPacket.DecodesExactly | command_handler.cpp:688-721 | A decoder of the four fields rebuilds the exact sequence of types and argument lists if and only if each type has one arity |
| UiPacket.EncodePacket | command_handler.cpp:688-721 | The encoder loops yield the sorted table of the types in use, each element's index into it, the argument count of the last element of each type, and the arguments in order |
| UiPacket.OnePacket | command_handler.cpp:688-721 | A list of elements has exactly one such packet |
| UiPacket.SortedTablesAgree | command_handler.cpp:699-702 | Two sorted tables of the same names are equal |
| UiPacket.MixedAritiesCollide | command_handler.cpp:704-721 | Without one arity per type two different lists have the same packet |
| UiPacket.CollectTypes | command_handler.cpp:699-702 | The first loop collects exactly the types in use, in order |
| UiStack.SitesKeepTheirArity | js_ui.cpp:253-1334 | No two of the 74 call sites share a type and disagree about the number of its arguments |
| UiStack.RunsAreLossless | js_ui.cpp:253-265 | Whatever a script calls, the packet of its stack decodes to exactly the types and arguments on the stack |
| UiStack.PacketsTellRunsApart | js_ui.cpp:253-265 | Two runs of calls with the same packet put the same types and arguments on the stack |
| UiCalls.PacketsTellCalls | js_ui.cpp:253-1334 | From the packet one reads exactly the calls that the script made, with every parameter in its place and in order, as far as the stack took them |
| UiCalls.CallsComeBack | js_ui.cpp:253-1334 | The type and arguments a call emits tell the call and each of its parameters |
| UiStack.Stack.AskTooLarge | js_ui.cpp:74-88 | The incremental sum answers whether the names of all elements reach 10 MiB |
| UiStack.Stack.AddElement | js_ui.cpp:253-265 | Appends the element of the call, or nothing on a stack that is too large |
| UiStack.Stack.AddLabelled | js_ui.cpp:411-445 | The emitting templates append label, values and extra parameters in this order |
| UiStack.Stack.Consume | js_ui.cpp:1359-1391 | Hands the elements over and empties the stack; a stack that is too large is kept and a blank one handed over |
| UiStack.Stack.SendUi | command_handler.cpp:678-730 | What is sent decodes to the stack as the script left it |
| LabelHash.HashStr | js_ui.cpp:33-58 | The table-driven loop with its restart at "###" computes the bit-at-a-time CRC-32 (section 8 of RFC 1952) of the part from the last "###" on |
| LabelHash.Table | js_ui.cpp:11-29 | Every one of the 256 table entries is eight bit steps of its index |
| LabelHash.TableStepIsEightBits | js_ui.cpp:41-55 | One table step on the register is eight bit steps with the byte mixed in |
| LabelHash.HashSized | js_ui.cpp:39-47 | The loop for a text of known length |
| LabelHash.HashTerminated | js_ui.cpp:48-56 | The loop for a text that ends at its first NUL |
| LabelHash.UnmarkedLabel | js_ui.cpp:33-59 | Without "###" the hash at seed 0 is plain CRC-32 |
| LabelHash.Residue | js_ui.cpp:33-59 | A text with its checksum behind it, lowest byte first, has the CRC-32 residue 0x2144DF1C |
| LabelHash.PrefixDoesNotMatter | js_ui.cpp:33-59 | Whatever stands before the last "###" does not change the hash |
| LabelHash.SanitiseValue | js_ui.cpp:67-72 | Appends the salt, the decimal hash and the closing word |
| LabelHash.SanitisedHash | js_ui.cpp:67-72 | A sanitised label hashes by its salted tail alone |
| LabelHash.TailTellsHash | js_ui.cpp:67-72 | Labels with different hashes get different tails |
| LabelHash.DecimalReadsBack | js_ui.cpp:67-72 | The decimal in the tail reads back as the hash, without a needless zero |
| LabelHash.SaltAndWord | js_ui.cpp:67-72 | The salt is "###somesalt" and the closing word "doot" |
| LabelHash.EqualHashesStayEqual | js_ui.cpp:67-72 | Labels with equal hashes still have equal hashes once sanitised |
| Accounts.EveryReachableStore | command_handler.cpp:1301-2427 | Over all runs of registration, deletion, free-account creation, Steam login and re-tie: no name is listed by two accounts, none lists a name twice or more than five names, and a non-zero Steam id is tied to at most one |
| Accounts.StepKeeps | command_handler.cpp:1513-1662 | Every handler keeps these invariants, whatever random token is drawn |
| Accounts.NameStaysTaken | command_handler.cpp:1526-1546 | A registered name stays with its account, and nobody else can register it, through any run that does not delete it or draw the same token again |
| Accounts.RegistrationRegisters | command_handler.cpp:1513-1550 | A registration succeeds exactly when the account exists, has fewer than five names and no other account lists the name; the account then lists it, and nothing else changes |
| Accounts.RegisteredNameIsKept | command_handler.cpp:1513-1550 | A run that begins with a registration keeps the name with its account, and refuses it to others, until it is deleted or the token is drawn again |
| Accounts.DeletionDeletes | command_handler.cpp:1301-1328 | A deletion takes the name from the account and changes nothing else |
| Accounts.NewAccounts | command_handler.cpp:1898-2427 | A free account has no Steam id and no names; a Steam login makes an account with the id exactly if none has it; other accounts stay |
| Accounts.DeleteUndoesRegister | command_handler.cpp:1301-1328 | Deleting after registering restores the records if and only if the name was not listed before |
| Accounts.RetieMovesSteam | command_handler.cpp:1637-1662 | After a re-tie the Steam id leads to the given account and to no other, the account that had it has none, other accounts keep theirs, and no name changes hands |
| Accounts.RetieSucceedsWhen | command_handler.cpp:1637-1662 | A re-tie succeeds exactly for a Steam id other than zero that some other account has |
| Accounts.Auth.LoadFromDbSteamId | auth.cpp:17-31 | The scan loads the first listed record with the Steam id, or leaves the object alone |
| Accounts.Auth.InsertUserExclusive | auth.cpp:38-47 | Appends a name that is not listed yet |
| Accounts.Auth.ContainsUser | auth.cpp:49-58 | The loop tells whether the name is listed |
| Accounts.Auth.EraseUser | command_handler.cpp:1309-1317 | The erasing loop removes every occurrence of the name and nothing else |
| Accounts.AccountStore.ClaimedByAnother | command_handler.cpp:1535-1544 | The two loops tell whether another account lists the name |
| Accounts.AccountStore.RegisterUser | command_handler.cpp:1513-1550 | Registers the name, or refuses: no such account, five names already, or claimed by another; the rest of the records stay |
| Accounts.AccountStore.DeleteUser | command_handler.cpp:1301-1328 | Removes the name from the account, or fails if there is none |
| Accounts.AccountStore.MakeFreeAuth | command_handler.cpp:1898-1915 | Adds an empty free account under the new token |
| Accounts.AccountStore.LoginWithSteam | command_handler.cpp:2374-2427 | Creates an account exactly when none is tied to the Steam id; the session gets the account of the key, or else one tied to the Steam id; a bad key changes nothing |
| Accounts.AccountStore.DeleteSteamAndTie | command_handler.cpp:1637-1662 | Moves the Steam id, or refuses: no Steam id, no account, no Steam account, already tied |
| RunGuard.UnforcedRunsAreExact | command_handler.cpp:494-512 | For every interleaving of runs that are not forced, at every moment, an account's entry is 1 exactly when one of its runs is blocking, and two never block together |
| RunGuard.RunsExact | command_handler.cpp:494-519 | Over all interleavings, forced runs included, the entries are exact throughout if and only if no forced run clears the entry of a blocking one |
| RunGuard.StepExact | command_handler.cpp:94-120 | The same for one event, both directions |
| RunGuard.HolderExcludesOthers | command_handler.cpp:501-510 | From the moment a run blocks until it leaves, every other run of the account that is not forced is refused, provided no forced run clears a held entry |
| RunGuard.OnlyTheHolderClears | command_handler.cpp:94-120 | An entry is cleared exactly when the run holding it leaves, and taken exactly when a run starts while none holds it: refused runs and exits of realtime runs clear nothing |
| RunGuard.NextRunGetsIn | command_handler.cpp:501-510 | Once the run that holds the entry ends or becomes realtime, the next run of the account gets in |
| RunGuard.ForcedRunBreaksTheGuard | command_handler.cpp:514-519 | A forced run beside a blocking one lets a third run block as well |
| RunGuard.CleanupAuthAtExit.Unblock | command_handler.cpp:103-109 | Clears the entry and disarms the destructor |
| RunGuard.CleanupAuthAtExit.Destroy | command_handler.cpp:111-119 | Clears the entry only if still armed |
| RunGuard.StartRun | command_handler.cpp:494-519 | The start of a run is refused, takes the entry, or is forced, as the state machine says, and leaves its cleanup object armed exactly in the second case |

## Left out

- Corrupt files and their `.back` copies in import; an I/O error of any kind.
- The order in which a directory lists its files is a parameter; collections are compared by `_cid`.
- The JSON library's codec and its order on values are parameters with the laws `Query.Lib.Valid` and
  `Query.Lib.Ordered`; the codec of `JsonCodec` shows that they can be met and is not CBOR.
- Running out of memory on the server.
- Numbers are m / 2^e, as doubles and integers are, without bounds on m and e: rounding and infinities
  of doubles, and casts to int of numbers out of range, are not modelled.
- A `$db` path comes already split into keys; array positions too large or negative are exceptions.
- References into a document tree are modelled as rewriting along the path: JSON values are immutable
  here, so aliasing inside one document is not captured. One lock per collection: one collection object.
- IdAllocator.Store.GetNextId: ids are unbounded, so 2^64 calls do not wrap round.
- Query.Arrange: the options come already parsed; std::sort stands as an insertion of each document.
- Copies from a slot that is no longer on the stack, values bound to a parent's property, and packing
  when the list of marks is shorter than the stack, which throws before it changes anything.
- MemorySandbox.Sandbox.Alloc: what malloc and realloc answer is a parameter; headers are a map, and
  writing the header into a block that is too small for it is not modelled.
- Chat texts, times, joining and leaving channels beyond their effect on recipient lists; the three
  polls are one method with the channel class as a parameter.
- UiStack.Stack.AddElement: argument values come sanitised; clamping, colours and the length limit on
  strings, which only make a call emit nothing, and the state of elements at the client are not modelled.
- LabelHash.SanitiseValue: std::to_string is written out; the client's own hash is not part of this model.
- Accounts: user records, nodes, items and the session's other state; a random token is a parameter.
- RunGuard: the script engine, time limits and the second guard on blocking execution.
- Networking, HTTP, fibers, the JavaScript engines, and all builds with TESTING or LOCAL_IP.
