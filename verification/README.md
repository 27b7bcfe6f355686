# A verified model of the Realm object store

Dafny proofs about the parts of Realm Cocoa, vendored under
`reactive-mobile-demo/Pods`, on which every write and every read of the demo's
data rests. `dafny verify dfyconfig.toml` checks all of it.

**Upserts** (`Schema`, `Tables`, `Upsert`, `Realm`). `Object::create` finds a row
by primary key, creates, updates or throws, then fills the properties from
supplied values or defaults, recursing into links and lists, plainly or writing
only differences. `Upsert` says what each operation does, as functions between
databases that also log every write; `RealmObjects.Realm` runs them in place with
the loops of the source and is proved equal to them, exceptions included. About
those functions: `Evolution`, `Keeps` and `Safety` prove the invariants of every run and
the frame of every call. `Trace` lists what misleads a run or is written in vain,
`Descriptions` and `Reuse` what the value tells of that. `DiffMode`, `DiffTheorems`,
`Parting`, `Additions`, `ModesPart` and `FlatModes` prove exactly when the diff mode
ends as the plain one does. `Meanings` says what a value asks of a property, a key or a
row, without running anything; in those terms `Storage` proves what is stored and read
back, `Depth` the same for objects nested to any depth, `Censuses` and `Answers` what
every call raises, from the number of rows and their keys alone, and `Flat` when an
upsert succeeds and that it is idempotent. `Writes`, `Repetition`, `Lengths` and `Room`
prove exactly what each mode writes in vain, and `InBounds` that indices stay in bounds.

**Range editing** (`ListEditing`). The Swift `List` operations built from single
inserts and removes, each equal to one expression over sequences.

**Index sets** (`Chunks`, `IndexWalk`, `IndexQueries`, `ChunkEdits`). The two-level
range iterator, the iterator over single indices, search, counting and shifting, and
the edits of the chunks with all they cache.

**Dates** (`Dates`). Dates as exact seconds, timestamps as signed seconds and
nanoseconds, and the conversions with their clamps.

**Transactions** (`Transactions`) and **observers** (`Observation`).
`Realm.write` around an arbitrary script of edits, commits, cancels, begins and
throws; the intrusive doubly linked chains of observers on the heap.

How the source is read:

* A row has one cell per property. A scalar is a payload of one base type, and
  zero stands for what core gives a fresh required column.
* Typed reads of a null cell are left open by core. `Config.nullRead` holds what
  they return for the base types where that is an ordinary value, and the theorems
  hold for any choice of it.
* The accessor context is the reference one, with `default_value_for_property` and
  `allow_missing` kept as parameters. Unboxing a link is a nested create.
* A null handed to a required column, or an unboxing of another type, is an error
  at that point; the database is what had been written until then.

Where the code and what is said about it differ, the model follows the code:

* `Realm.write` is documented to roll back all changes made before a throw. What
  the block itself committed stays (`Transactions.Realm.Write`).
* `RLMTimestampForNSDate` means to clamp what a timestamp cannot hold. At the early
  end it compares with the epoch on the wrong side, so timestamps less than twice
  the epoch above the minimum are clamped too (`Dates.WindowOfTimestamps`).
* `IndexSet::count` is short by the last part of a stretch that begins inside one
  chunk and ends in the first range of the next, and wraps around for some stretches
  that end before they begin (`IndexQueries.Count`).
* The diff mode is meant to write only what differs. It does, except in two places
  (`Writes.CreateWritesOnlyChangesIff`): an object beyond the old end of a list is
  written plainly (`Writes.AppendedObjectsAreRewritten`), and a list given null is
  cleared even if it is empty. `Repetition.CreateWritesInVainIff` tells before the
  call whether that writes something in vain.
* The two modes are meant to end alike. A null cell keeps its null when the new value
  is what it reads as, even in a row just created, and an update that describes an
  object without a key for a link rewrites the row already linked. Those two are all
  that can part them where no object is described twice
  (`ModesPart.CreateModesPartIff`); an object described inside itself may part them
  too (`DiffTheorems.SelfNestingPartsTheModes`).
* The loop over a list compares with elements it expects to be there. An update that
  comes back to an object while it assigns its list may have emptied it, and raises
  the out-of-bounds exception (`InBounds.SelfNestingLeavesTheBounds`,
  `InBounds.ReenteringLeavesTheBounds`).
* The builder of an index set gives a chunk it has not reserved the count 1, whatever
  range begins it (`ChunkEdits.ChunkedRangeVectorBuilder.PushBack`).
* Index iterators compare equal anywhere in the same range
  (`IndexWalk.EqualInSameRange`).

## Model

| member | source | states |
|---|---|---|
| `RealmObjects.Realm.Create` | reactive-mobile-demo/Pods/Realm/include/object_accessor.hpp:197-311 | Creating in place, with every exception and the state it leaves, is the function `Upsert.Create`; the tables stay well typed and no link dangles whatever the value is. |
| `RealmObjects.Realm.PopulateRow` | reactive-mobile-demo/Pods/Realm/include/object_accessor.hpp:283-303 | The loop over the persisted properties, with supplied values, defaults, skipped keys and missing values, is the recursive function `Upsert.Populate`. |
| `RealmObjects.Realm.SetPropertyValue` | reactive-mobile-demo/Pods/Realm/include/object_accessor.hpp:43-57 | Setting a property from outside checks, in this order, attachment, the transaction, the property and the primary key, and otherwise is the plain mode of the implementation. |
| `RealmObjects.Realm.SetPropertyValueImpl` | reactive-mobile-demo/Pods/Realm/include/object_accessor.hpp:76-148 | The null, array, link and scalar branches in place are the function `Upsert.SetProp`, and the row index captured before a nested create is still a row of its table afterwards. |
| `RealmObjects.Realm.Unbox` | reactive-mobile-demo/Pods/Realm/include/impl/object_accessor_impl.hpp:179-191 | Unboxing a link gives the managed row, or the row of a nested create; every cell that was in range stays in range. |
| `RealmObjects.Realm.Add` | reactive-mobile-demo/Pods/Realm/include/list.hpp:193-197 | Adding a boxed value unboxes it in the plain mode, validates it and appends it. |
| `RealmObjects.Realm.SetIfDifferent` | reactive-mobile-demo/Pods/Realm/include/list.hpp:236-246 | An element is unboxed in the diff mode against its current row and set only if it differs. |
| `RealmObjects.Realm.RemoveAll` | reactive-mobile-demo/Pods/Realm/Realm/ObjectStore/src/list.cpp:291-298 | In a transaction clearing empties that list and nothing else; outside one it throws and changes nothing. |
| `RealmObjects.Realm.RemoveAt` | reactive-mobile-demo/Pods/Realm/Realm/ObjectStore/src/list.cpp:281-289 | Removing an element closes the gap in that list and changes nothing else; outside a transaction, or beyond the end, it throws and changes nothing. |
| `RealmObjects.Realm.Assign` | reactive-mobile-demo/Pods/Realm/include/list.hpp:249-283 | Assigning in place, in both modes, is the function `Upsert.Assign`. |
| `RealmObjects.Realm.AssignDifferences` | reactive-mobile-demo/Pods/Realm/include/list.hpp:260-276 | The set-or-add loop with its running index equals the recursive diff assignment from index zero. |
| `RealmObjects.Realm.RemoveFrom` | reactive-mobile-demo/Pods/Realm/include/list.hpp:272-275 | The removal loop terminates on size minus index and equals the recursive trim. |
| `RealmObjects.Realm.AddAll` | reactive-mobile-demo/Pods/Realm/include/list.hpp:278-281 | The clear-then-add loop equals the recursive plain assignment. |
| `Tables.FindFirst` | reactive-mobile-demo/Pods/Realm/include/object_accessor.hpp:340-356 | The lookup returns the lowest row whose cell holds the key, and no row exactly when none does. |
| `Keeps.CreateEvolves` | reactive-mobile-demo/Pods/Realm/include/object_accessor.hpp:197-311 | The invariant of every create at any nesting depth, however it ends: tables only grow, cells stay well typed and links in range; unless a migration writes keys, rows keep keys and indices and keys stay distinct; and rows whose key the value never names and that are not reused for being linked, or all rows if nothing is updated, are not even written. |
| `Keeps.SetPropEvolves` | reactive-mobile-demo/Pods/Realm/include/object_accessor.hpp:76-148 | The same invariant for setting one property of one row. |
| `Keeps.AssignEvolves` | reactive-mobile-demo/Pods/Realm/include/list.hpp:249-283 | The same invariant for assigning a list, in both modes. |
| `Safety.SetPropertyValueEvolves` | reactive-mobile-demo/Pods/Realm/include/object_accessor.hpp:43-57 | The same invariant for the public setter, which writes keys only in a migration. |
| `Safety.RunEvolves` | reactive-mobile-demo/Pods/Realm/include/object_accessor.hpp:197-311 | The invariant over every sequence of creates and sets, throwing or not. |
| `Safety.RunKeepsLinks` | reactive-mobile-demo/Pods/Realm/include/object_accessor.hpp:112-120 | Link integrity: after any run every link and every list entry names an existing row of its target table. |
| `Safety.RunKeepsKeysUnique` | reactive-mobile-demo/Pods/Realm/include/object_accessor.hpp:210-264 | Outside a migration no run makes two rows of a table share a primary key. |
| `Safety.RunKeepsRows` | reactive-mobile-demo/Pods/Realm/include/object_accessor.hpp:82-119 | Over any run rows are only appended, and outside a migration a row index keeps naming the same key. |
| `Safety.CreateOnlyAppends` | reactive-mobile-demo/Pods/Realm/include/object_accessor.hpp:210-277 | Without `try_update` a create, in a migration or not and in either mode, changes no existing cell and writes only to rows it added, however deep the value is nested and however it ends. |
| `Safety.CapturedRowStays` | reactive-mobile-demo/Pods/Realm/include/object_accessor.hpp:82-119 | A row index captured before a nested create names the same row and key after it, in both modes, whatever row the diff mode is handed, and in a migration too. |
| `Safety.CreateTouchesOnlyNamedRows` | reactive-mobile-demo/Pods/Realm/include/object_accessor.hpp:279-303 | Frame: a create neither changes nor writes a row whose key its value does not name at any depth. A row without a key is named by nothing: the plain mode never touches one that was there, updating or not, and the diff mode only one that it finds linked where an object is described. |
| `Safety.CreateReturns` | reactive-mobile-demo/Pods/Realm/include/object_accessor.hpp:210-277 | The returned row carries the key the value describes; it existed before only for an update of a keyed type, and otherwise is the next row of its table. |
| `Additions.CreateAdds` | reactive-mobile-demo/Pods/Realm/include/object_accessor.hpp:265-277 | Conservation: plain creation adds exactly as many rows to each table as the value asks for, told before the call; in the diff mode the rows added and those reused are together no more. |
| `Safety.DuplicateKeyWithoutUpdate` | reactive-mobile-demo/Pods/Realm/include/object_accessor.hpp:250-262 | Over a key that a row carries already without `try_update`: an exception and no change, or in a migration a fresh row at the end of the table. |
| `DiffMode.CreateAgrees` | reactive-mobile-demo/Pods/Realm/include/object_accessor.hpp:197-311 | The refinement behind the theorems: from two databases that agree outside cells under assignment, plain and diff creation return alike, and on success differ just in the cells about which the diff mode was mistaken. |
| `DiffMode.LoopAgrees` | reactive-mobile-demo/Pods/Realm/include/list.hpp:260-281 | The plain loop from index k and the diff loop from index k, whose list still has its old tail, return alike and differ in just such cells; elements beyond the recorded length are not compared. |
| `DiffTheorems.DiffRefinesPlain` | reactive-mobile-demo/Pods/Realm/include/object_accessor.hpp:76-148 | Diff refinement, in a migration too: where no comparison of the run takes a scalar for a null and no row without a key is reused for being linked, both modes give the same row or exception, and the same tables on success; an update must describe no object inside itself. |
| `DiffTheorems.ModesPartIff` | reactive-mobile-demo/Pods/Realm/include/object_accessor.hpp:65-74 | Both modes of any create always return the same row or exception, and end with the same tables if and only if the diff mode takes no scalar for the null it finds; so do updates that describe no object twice and reuse no row. In a migration too. |
| `ModesPart.CreateModesPartIff` | reactive-mobile-demo/Pods/Realm/include/object_accessor.hpp:76-148 | The exact condition before the call, for links and lists at any depth, creating or updating: if one mode returns, the other returns the same row and leaves the same tables if and only if nothing misleads the comparison, that is, no described scalar is what the null in its cell reads as and no link to a row without a key is given a description. The cell is the one of the row found before the call, or an empty one; only elements within the old length of a list count, and keys do not. If nothing misleads it, and for creates in any case, both modes raise the same exceptions. |
| `ModesPart.CreatingIsMisledByTheValue` | reactive-mobile-demo/Pods/Realm/include/object_accessor.hpp:205-277 | For a create the condition does not depend on the database: it can be told from the value, and elements of lists never count. |
| `Reuse.CreateReusesNothing` | reactive-mobile-demo/Pods/Realm/include/object_accessor.hpp:265-277 | A create without `try_update` reuses no row at any depth, since every link it follows is in a row that it added. |
| `Reuse.SafeIsFaithful` | reactive-mobile-demo/Pods/Realm/include/object_accessor.hpp:65-74 | Where no described scalar is one that a null reads as, and links are given descriptions only of types with keys, nothing misleads the diff mode, whatever the database is. |
| `Reuse.NestingKeyedReentersNone` | reactive-mobile-demo/Pods/Realm/include/object_accessor.hpp:266-268 | Where no object without a key is described below another of its type, the diff mode never comes back to a row without a key that it is populating, whatever the database is. |
| `DiffTheorems.AssignModesAgree` | reactive-mobile-demo/Pods/Realm/include/list.hpp:249-283 | In a transaction diff assignment and clear-then-add end with the same tables and result, for every old and new length, where no comparison of the run misleads it; elements beyond the old end are not compared. |
| `ModesPart.AssignModesPartAsForetold` | reactive-mobile-demo/Pods/Realm/include/list.hpp:249-283 | The exact condition before the call for one list: if one mode returns, the other does with the same tables if and only if no element within the old length misleads the comparison. |
| `DiffTheorems.NewListIsFaithful` | reactive-mobile-demo/Pods/Realm/include/list.hpp:260-276 | Nothing in a value assigned to an empty list misleads the diff mode, updating or not. |
| `InBounds.PlainInBounds` | reactive-mobile-demo/Pods/Realm/include/list.hpp:278-281 | Plain creation raises no out-of-bounds exception, on any input. |
| `InBounds.DiffInBounds` | reactive-mobile-demo/Pods/Realm/include/list.hpp:260-276 | No index the diff mode gets, sets or removes is out of bounds, at any depth, whatever scalars and link targets there are; an update must describe no object inside itself and must not come back, through a link, to a row without a key while it populates it. |
| `InBounds.AssignInBounds` | reactive-mobile-demo/Pods/Realm/include/list.hpp:260-276 | The same for assigning one list: the recorded length stays the length of the list while its elements are unboxed. |
| `InBounds.SelfNestingLeavesTheBounds` | reactive-mobile-demo/Pods/Realm/include/list.hpp:236-246 | A concrete update with an object described inside itself empties the list under assignment and ends with the out-of-bounds exception. |
| `InBounds.ReenteringLeavesTheBounds` | reactive-mobile-demo/Pods/Realm/include/list.hpp:260-276 | A concrete update that comes back to a row without a key, and names no object inside itself, ends with the out-of-bounds exception. |
| `DiffTheorems.ScalarModesPartIff` | reactive-mobile-demo/Pods/Realm/include/object_accessor.hpp:65-74 | On one scalar cell the modes part exactly when the cell is null and the new value is what a typed read of null returns. |
| `DiffTheorems.SelfNestingPartsTheModes` | reactive-mobile-demo/Pods/Realm/include/object_accessor.hpp:112-120 | A concrete update with an object described inside itself ends differently in the two modes, with every other condition of the refinement met. |
| `DiffTheorems.KeylessTargetPartsTheModes` | reactive-mobile-demo/Pods/Realm/include/object_accessor.hpp:265-277 | A concrete update with a link to a type without keys ends differently in the two modes, with every other condition of the refinement met. |
| `DiffTheorems.KeylessTargetIsReused` | reactive-mobile-demo/Pods/Realm/include/object_accessor.hpp:266-268 | In the diff mode the row already linked is rewritten. |
| `DiffTheorems.KeylessTargetIsAdded` | reactive-mobile-demo/Pods/Realm/include/object_accessor.hpp:269-276 | In the plain mode a second row is added and linked instead. |
| `FlatModes.FlatModesAgreeIff` | reactive-mobile-demo/Pods/Realm/include/object_accessor.hpp:65-74 | On any type without links the modes succeed alike, and agree exactly when no supplied value is the typed reading of a null cell; this also holds of the null columns of a row just added. |
| `FlatModes.CreateRepeatsIff` | reactive-mobile-demo/Pods/Realm/include/object_accessor.hpp:65-74 | Plain creation on a type without links writes only what changes exactly when it supplies no scalar or null its row holds already and no list where its row has an empty one. |
| `Writes.CreateWritesOnlyChangesIff` | reactive-mobile-demo/Pods/Realm/include/object_accessor.hpp:65-74 | A create writes only what changes if and only if no step of it overwrites a cell with what it holds: in either mode, at every depth and for every exception. The plain mode does so for each value, null and link that is there already and each empty list it clears; the diff mode only within objects beyond the old end of a list, and for an empty list given null. An update in the diff mode must not come back to an object while it populates it. |
| `Writes.AssignWritesIff` | reactive-mobile-demo/Pods/Realm/include/list.hpp:249-283 | The same for assigning one list. |
| `Repetition.CreateWritesInVainIff` | reactive-mobile-demo/Pods/Realm/include/object_accessor.hpp:65-74 | This can be told before the call: a successful create in either mode, with links and lists at any depth, writes something in vain if and only if a value, null or link it writes without comparing is in the cell found before the call, or it clears a list that is empty there. |
| `Repetition.AssignWritesInVainIff` | reactive-mobile-demo/Pods/Realm/include/list.hpp:249-283 | The same for assigning one list, at every old and new length. |
| `Room.DiffWritesOnlyChanges` | reactive-mobile-demo/Pods/Realm/include/list.hpp:236-276 | Objects may be described inside lists at any depth: where each list is there already and no shorter than the objects described in it, and no description shortens it, the diff mode writes a cell only to change it, except for clearing an empty list given null. |
| `Room.AssignWritesOnlyChanges` | reactive-mobile-demo/Pods/Realm/include/list.hpp:236-276 | The same for one list: elements within its old length are compared, so no object that is there already is rewritten. |
| `Room.ListedObjectsAreCompared` | reactive-mobile-demo/Pods/Realm/include/list.hpp:264-266 | A concrete update of an object that is in the list already, with the values it has: only changes are written. |
| `Writes.AppendedObjectsAreRewritten` | reactive-mobile-demo/Pods/Realm/include/list.hpp:267-268 | A concrete update shows why: an object appended with the values it already has is rewritten. |
| `Writes.DiffAssignCounts` | reactive-mobile-demo/Pods/Realm/include/list.hpp:260-276 | Diff assignment does as many sets as there are differing positions in the common prefix, max(0, new-old) adds, max(0, old-new) removes and no clear. |
| `DiffMode.TrimCuts` | reactive-mobile-demo/Pods/Realm/include/list.hpp:272-275 | The removal loop cuts the list at the index, in bounds, and touches nothing else. |
| `Storage.CreateStores` | reactive-mobile-demo/Pods/Realm/include/object_accessor.hpp:279-303 | After a successful create, in either mode and in a migration too, each property of the returned row holds what the dictionary supplies; where it supplies nothing, what an existing row held, and of a new row the default, or nothing without one; the key is the one asked for. Exactly where the diff mode takes the value for the null it finds, the null stays. An update must not name its own key again below it, nor in the diff mode come back to its own row if that has no key. |
| `Storage.AssignStores` | reactive-mobile-demo/Pods/Realm/include/list.hpp:249-283 | After assignment in either mode the list holds exactly the enumerated values, in order. |
| `Storage.SetPropStores` | reactive-mobile-demo/Pods/Realm/include/object_accessor.hpp:76-148 | After setting a property its cell holds what the value denotes: the scalar, null, the row, or a row with the key described; unless the diff mode takes a scalar for the null that is there. |
| `Storage.CreateIdentifies` | reactive-mobile-demo/Pods/Realm/include/object_accessor.hpp:210-264 | The created or updated row carries the key the value supplies or defaults to, also where a migration leaves writing it to the population loop; without `try_update` it is the next row of its table. |
| `Storage.CreateThenFind` | reactive-mobile-demo/Pods/Realm/include/object_accessor.hpp:322-356 | After a create, looking its key up finds the returned row if and only if it was an update or no row had the key: a migration may have created a duplicate behind an older row. |
| `Storage.LookupFindsIff` | reactive-mobile-demo/Pods/Realm/include/object_accessor.hpp:322-356 | Where keys are distinct a lookup finds a row if and only if the type has a key, the value is null where that is allowed or a scalar of its type, and the row carries it. |
| `Storage.LookupAnswers` | reactive-mobile-demo/Pods/Realm/include/object_accessor.hpp:322-356 | A lookup finds no row, without an exception, if and only if the type has a key that the value can be and no row carries it; it raises the missing-key exception if and only if there is no key, and refuses the value if and only if it cannot be the key. |
| `Storage.CreateThenRead` | reactive-mobile-demo/Pods/Realm/include/object_accessor.hpp:150-184 | Round trip: a supplied scalar, null or scalar list reads back as the supplied value if and only if the diff mode did not take it for the null it found. |
| `Storage.CreateLeavesEmpty` | reactive-mobile-demo/Pods/Realm/include/object_accessor.hpp:288-302 | A property of a new row that is neither supplied nor defaulted reads as null, as zero or as an empty list. |
| `Storage.CreateThenFollow` | reactive-mobile-demo/Pods/Realm/include/object_accessor.hpp:170-174 | A supplied link reads back as the row that was handed over, or, for an object description, as a row with the key described. |
| `Storage.CreateThenReadList` | reactive-mobile-demo/Pods/Realm/include/object_accessor.hpp:156-159 | A supplied list of objects reads back with its elements in order: rows as themselves, described objects as rows with the keys described. |
| `Storage.ReadAnswers` | reactive-mobile-demo/Pods/Realm/include/object_accessor.hpp:150-184 | Reading gives null, the scalar or the row that the cell holds, and for a list, of objects too, its elements in order; it raises an exception exactly for an unknown property or a detached row. |
| `Evolution.KeyIsOffered` | reactive-mobile-demo/Pods/Realm/include/object_accessor.hpp:211-222 | The key that is looked up is the one supplied, else the default, else null where that is allowed; and what is raised for want of one. |
| `Depth.CreateStoresBelow` | reactive-mobile-demo/Pods/Realm/include/object_accessor.hpp:76-311 | Full round trip: after a create every object that the value describes, at any depth of links and lists, is in its row: the row that carried its key if it is updated, else a new one. That row holds what is supplied for it, and otherwise what it held, or its defaults if it is new. An update must not describe an object twice; the diff mode must not be misled. |
| `Depth.SetPropertyValueStores` | reactive-mobile-demo/Pods/Realm/include/object_accessor.hpp:43-148 | The same for the setter: afterwards the cell holds the value, null links and whole lists included, and every object described in it is in its row. An update must not describe an object twice, or the one it sets. |
| `Depth.CreateHolds` | reactive-mobile-demo/Pods/Realm/include/object_accessor.hpp:197-311 | The induction behind it, for a create inside another: the rows it describes are as they were before the outer call when it comes to them. |
| `Depth.LoopHolds` | reactive-mobile-demo/Pods/Realm/include/list.hpp:278-281 | The same for the loop over a list: each element, once added, stays held while the later ones are created. |
| `Censuses.CreateIsJudged` | reactive-mobile-demo/Pods/Realm/include/object_accessor.hpp:197-311 | What plain creation raises, for objects nested to any depth, with or without `try_update` and in a migration too, depends only on how many rows each table has and which row first carries each key; the census left behind, also by an exception, is the one foreseen. |
| `Censuses.SetPropIsJudged` | reactive-mobile-demo/Pods/Realm/include/object_accessor.hpp:76-148 | The same for setting one property. |
| `Censuses.ElementIsJudged` | reactive-mobile-demo/Pods/Realm/include/list.hpp:193-197 | The same for adding one element: scalars must be of the type of the list, rows of its target table. |
| `Answers.CreateAnswers` | reactive-mobile-demo/Pods/Realm/include/object_accessor.hpp:197-311 | Whether a create returns, and which exception it raises if not, in either mode: exactly as judged from the census before the call. In the diff mode it must not write keys, and an update must describe no object twice and offer no linked row for reuse. |
| `Answers.SetPropertyValueAnswers` | reactive-mobile-demo/Pods/Realm/include/object_accessor.hpp:43-57 | Each failing check of the setter raises its own exception, the first one first; if all hold, it returns or raises exactly what the value, of any depth, is judged to. |
| `Answers.AssignAnswers` | reactive-mobile-demo/Pods/Realm/include/list.hpp:249-283 | Whether assigning a list returns, and what it raises if not, for elements described to any depth, as judged from the census; in the diff mode where nothing misleads it and no object is described twice. |
| `Answers.AssignPlacesIff` | reactive-mobile-demo/Pods/Realm/include/list.hpp:249-283 | Assigning scalars, or objects that are there, returns in either mode if and only if every scalar is of its type and every object is a row of the target table, and then the list holds just those in order; otherwise the first that is not decides what is raised. Nothing but the list changes. |
| `Answers.LinkIsSetIff` | reactive-mobile-demo/Pods/Realm/include/impl/object_accessor_impl.hpp:179-185 | Setting a link to an object that is there returns in either mode if and only if the target table has the row; then the link names it. |
| `Answers.AssignOutside` | reactive-mobile-demo/Pods/Realm/Realm/ObjectStore/src/list.cpp:281-298 | Outside a transaction assigning a list changes nothing, and in the plain mode raises an exception unless the list is its own. |
| `Storage.ReenteredRowIsOverwritten` | reactive-mobile-demo/Pods/Realm/include/object_accessor.hpp:266-268 | A concrete update of an object without a key, to which the diff mode comes back through a link, does not hold the value it was given first. |
| `Flat.CreateSucceedsIff` | reactive-mobile-demo/Pods/Realm/include/object_accessor.hpp:197-311 | On a type without links a create succeeds if and only if the realm is in a write transaction, the key is there and free, and every other property has what it needs: a supplied value that fits it; and in a new row, where none is supplied, a default that fits, or no need of a value, or leave to miss it. |
| `Flat.UpsertTouchesOneRow` | reactive-mobile-demo/Pods/Realm/include/object_accessor.hpp:279-303 | Such a create is about one row, the first with the key if it updates it, else the next new one; no other row is added or changes. |
| `Flat.RepeatingChangesNothing` | reactive-mobile-demo/Pods/Realm/include/object_accessor.hpp:279-303 | Repeating a create as an update, in either mode, returns the same row, and changes nothing if and only if it is not a plain repetition of a diff run that took a supplied value for null; it returns another row exactly after a migration created a duplicate. |
| `Flat.SetPropertyValueIff` | reactive-mobile-demo/Pods/Realm/include/object_accessor.hpp:43-57 | The setter succeeds if and only if the row is attached, a transaction is open, the property exists and is no key or a migration is on, and the value fits: null where that is allowed, a scalar of its type, or a list of those; it changes one cell, which reads back. |
| `Flat.SetPropFits` | reactive-mobile-demo/Pods/Realm/include/object_accessor.hpp:76-148 | A property without links can be set, in either mode, exactly when the value fits it: null where that is allowed, a scalar of its type, or a list of those; nothing but its cell changes. |
| `ListEditing.List.RemoveAt` | reactive-mobile-demo/Pods/RealmSwift/RealmSwift/List.swift:318-321 | Removes the element, or throws and changes nothing. |
| `ListEditing.List.Insert` | reactive-mobile-demo/Pods/RealmSwift/RealmSwift/List.swift:304-307 | Inserts the element, or throws and changes nothing. |
| `ListEditing.List.RemoveSubrange` | reactive-mobile-demo/Pods/RealmSwift/RealmSwift/List.swift:622-627 | Repeated removal at the lower bound deletes the range; past the end it deletes what there is and throws. |
| `ListEditing.List.InsertContents` | reactive-mobile-demo/Pods/RealmSwift/RealmSwift/List.swift:609-615 | Forward insertion with a moving index puts the collection at the position. |
| `ListEditing.List.InsertReversed` | reactive-mobile-demo/Pods/RealmSwift/RealmSwift/List.swift:499-501 | Reversed insertion at a fixed index does the same. |
| `ListEditing.List.ReplaceSubrange` | reactive-mobile-demo/Pods/RealmSwift/RealmSwift/List.swift:493-502 | Turns s into s[..lo] + new + s[hi..], with the exact partial result when it throws. |
| `ListEditing.List.ReplaceSubrangeForwards` | reactive-mobile-demo/Pods/RealmSwift/RealmSwift/List.swift:670-674 | The older overload is the same function of its arguments, so the two agree on every input. |
| `ListEditing.List.RemoveFirst` | reactive-mobile-demo/Pods/RealmSwift/RealmSwift/List.swift:574-584 | Removes the first elements; throws and changes nothing if there are too few, and traps on a negative number. |
| `ListEditing.List.RemoveLast` | reactive-mobile-demo/Pods/RealmSwift/RealmSwift/List.swift:592-602 | Removes the last elements; throws and changes nothing if there are too few, and traps on a negative number. |
| `ListEditing.ReplacementThrowsIff` | reactive-mobile-demo/Pods/RealmSwift/RealmSwift/List.swift:493-502 | A replacement throws if and only if the range is out of bounds and there is something to do; it then leaves a prefix of the list, and otherwise a list of the right length. |
| `ListEditing.ReplacingBackRestores` | reactive-mobile-demo/Pods/RealmSwift/RealmSwift/List.swift:493-502 | Replacing back what was replaced restores the list. |
| `ListEditing.ReplacingInTwoSteps` | reactive-mobile-demo/Pods/RealmSwift/RealmSwift/List.swift:493-502 | Replacing at a seam in two steps is replacing in one. |
| `Chunks.RangeIterator.Current` | reactive-mobile-demo/Pods/Realm/include/index_set.hpp:58-63 | The range under an iterator is the one its rank counts to in the concatenation of the chunks. |
| `Chunks.RangeIterator.NextChunk` | reactive-mobile-demo/Pods/Realm/include/index_set.hpp:315-320 | Moves to the start of the next chunk, or to the end, past the rest of the present one. |
| `Chunks.RangeIterator.Increment` | reactive-mobile-demo/Pods/Realm/include/index_set.hpp:277-284 | Moves on by exactly one range, across chunk borders and to the end. |
| `Chunks.RangeIterator.Decrement` | reactive-mobile-demo/Pods/Realm/include/index_set.hpp:294-305 | Moves back by exactly one range, across chunk borders and from the end. |
| `Chunks.RangeIterator.IncrementThenDecrement` | reactive-mobile-demo/Pods/Realm/include/index_set.hpp:277-305 | `--` undoes `++` at every position but the end. |
| `Chunks.RangeIterator.DecrementThenIncrement` | reactive-mobile-demo/Pods/Realm/include/index_set.hpp:277-305 | `++` undoes `--` at every position but the beginning, the null-inner end included. |
| `Chunks.EqualIffSameRank` | reactive-mobile-demo/Pods/Realm/include/index_set.hpp:263-268 | Iterators compare equal if and only if as many ranges precede them. |
| `Chunks.RankFinds` | reactive-mobile-demo/Pods/Realm/include/index_set.hpp:108-113 | Every position but the end stands on the range its rank counts to; the end ranks after all. |
| `Chunks.BeginIsFirst` | reactive-mobile-demo/Pods/Realm/include/index_set.hpp:108-113 | The beginning is the one position nothing precedes, also when there is no chunk. |
| `Chunks.NeighboursApart` | reactive-mobile-demo/Pods/Realm/Realm/ObjectStore/src/index_set.cpp:172-180 | Comparing neighbouring ranges, as `verify` does, keeps all ranges apart. |
| `Chunks.Walk` | reactive-mobile-demo/Pods/Realm/include/index_set.hpp:277-320 | The `++` walk from beginning to end visits exactly the concatenation of the chunks. |
| `IndexWalk.IndexIterator.Increment` | reactive-mobile-demo/Pods/Realm/include/index_set.hpp:199-207 | One step leaves the indices still to visit but the present one, and goes to the next index of the range or to the first of the next range. |
| `IndexWalk.EqualInSameRange` | reactive-mobile-demo/Pods/Realm/include/index_set.hpp:196-197 | Index iterators compare equal if and only if they are in the same range; against the end, if and only if nothing is left. |
| `IndexWalk.DifferentIndicesCompareEqual` | reactive-mobile-demo/Pods/Realm/include/index_set.hpp:196-197 | Two concrete iterators at different indices compare equal. |
| `IndexWalk.IndicesAreMembers` | reactive-mobile-demo/Pods/Realm/include/index_set.hpp:192-219 | The indices of ranges are exactly their members. |
| `IndexWalk.IndicesAscend` | reactive-mobile-demo/Pods/Realm/include/index_set.hpp:192-219 | The indices of ranges that lie apart are strictly ascending. |
| `IndexWalk.VisitUntil` | reactive-mobile-demo/Pods/Realm/include/index_set.hpp:221-235 | The loop over `as_indexes()` terminates, although equality ignores offsets, and visits all that is left. |
| `IndexWalk.WalkIndices` | reactive-mobile-demo/Pods/Realm/include/index_set.hpp:192-219 | Walking the index iterator yields every member exactly once, in strictly ascending order. |
| `IndexQueries.Find` | reactive-mobile-demo/Pods/Realm/Realm/ObjectStore/src/index_set.cpp:323-344 | Skipping whole chunks by their cached end and searching within one finds the first range that ends after the index. |
| `IndexQueries.Contains` | reactive-mobile-demo/Pods/Realm/Realm/ObjectStore/src/index_set.cpp:273-277 | True if and only if some range holds the index. |
| `IndexQueries.CountRestOfChunk` | reactive-mobile-demo/Pods/Realm/Realm/ObjectStore/src/index_set.cpp:291-302 | The first part of `count`: what it has tallied when it stops, and exactly what it has missed. |
| `IndexQueries.Count` | reactive-mobile-demo/Pods/Realm/Realm/ObjectStore/src/index_set.cpp:279-321 | The result is the number of members of the stretch, less exactly the part in the first range of the next chunk when the stretch begins inside a chunk and ends in that range; with the start above the end it is zero, or the wrapped difference if one range reaches over both. |
| `IndexQueries.CountFallsShort` | reactive-mobile-demo/Pods/Realm/Realm/ObjectStore/src/index_set.cpp:298-301 | A concrete set of two chunks on which `count` gives 1 for a stretch with 3 members. |
| `IndexQueries.CountsIndices` | reactive-mobile-demo/Pods/Realm/Realm/ObjectStore/src/index_set.cpp:279-321 | Counting overlaps of ranges is counting the indices one by one. |
| `IndexQueries.Shift` | reactive-mobile-demo/Pods/Realm/Realm/ObjectStore/src/index_set.cpp:656-665 | Gives a non-member before which there are exactly as many members as the index was moved by. |
| `IndexQueries.ShiftedOnce` | reactive-mobile-demo/Pods/Realm/Realm/ObjectStore/src/index_set.cpp:656-665 | There is only one such index. |
| `IndexQueries.Unshift` | reactive-mobile-demo/Pods/Realm/Realm/ObjectStore/src/index_set.cpp:667-671 | Gives the index from which `shift` would reach the given non-member; the shortfall of `count` never shows here. |
| `IndexQueries.ShiftThenUnshift` | reactive-mobile-demo/Pods/Realm/Realm/ObjectStore/src/index_set.cpp:656-671 | Unshifting undoes shifting, for every index. |
| `IndexQueries.UnshiftThenShift` | reactive-mobile-demo/Pods/Realm/Realm/ObjectStore/src/index_set.cpp:656-671 | Shifting undoes unshifting, for every non-member. |
| `IndexQueries.UnshiftingIsStrict` | reactive-mobile-demo/Pods/Realm/Realm/ObjectStore/src/index_set.cpp:667-671 | Unshifting keeps non-members apart and in order. |
| `ChunkEdits.ChunkedRangeVector.PushBack` | reactive-mobile-demo/Pods/Realm/Realm/ObjectStore/src/index_set.cpp:72-86 | A range behind all others goes into the last chunk, or into a new one if that is full; bounds, counts and distances stay right. |
| `ChunkEdits.ChunkedRangeVector.EnsureSpace` | reactive-mobile-demo/Pods/Realm/Realm/ObjectStore/src/index_set.cpp:106-142 | A full chunk is split in half with the counts of both halves; no range changes, and the position returned is on the same range, in a chunk with room. |
| `ChunkEdits.ChunkedRangeVector.Insert` | reactive-mobile-demo/Pods/Realm/Realm/ObjectStore/src/index_set.cpp:88-104 | Exactly the given range is added at the position, all cached bounds and counts stay right, and the position returned is its own. |
| `ChunkEdits.ChunkedRangeVector.Erase` | reactive-mobile-demo/Pods/Realm/Realm/ObjectStore/src/index_set.cpp:144-170 | Exactly the range at the position goes, its chunk too if it was alone; the position returned is that of the range that followed, or the end. |
| `ChunkEdits.ChunkedRangeVector.Adjust` | reactive-mobile-demo/Pods/Realm/Realm/ObjectStore/src/index_set.cpp:45-57 | Moving the ends of one range changes no other and keeps its chunk's bounds and count right. |
| `ChunkEdits.ChunkedRangeVector.DoAdd` | reactive-mobile-demo/Pods/Realm/Realm/ObjectStore/src/index_set.cpp:678-707 | The four cases of adding an index, in a range, after one, before one or between, and the joining of two ranges, keep the set well formed; the position returned is that of the range with the index. |
| `ChunkEdits.ChunkedRangeVector.Add` | reactive-mobile-demo/Pods/Realm/Realm/ObjectStore/src/index_set.cpp:346-349 | Adding an index makes exactly that index a member and keeps the set well formed. |
| `ChunkEdits.InsertedApartIff` | reactive-mobile-demo/Pods/Realm/Realm/ObjectStore/src/index_set.cpp:172-180 | A range can be put at a place, with all ranges still apart, if and only if there is a gap between it and each neighbour. |
| `ChunkEdits.AddedApart` | reactive-mobile-demo/Pods/Realm/Realm/ObjectStore/src/index_set.cpp:678-707 | Ranges that are apart stay apart when an index is added: one that fills a gap joins its neighbours. |
| `ChunkEdits.AddedMembers` | reactive-mobile-demo/Pods/Realm/Realm/ObjectStore/src/index_set.cpp:678-707 | The new ranges hold the old members and the index, and no other. |
| `ChunkEdits.ChunkedRangeVectorBuilder.PushBack` | reactive-mobile-demo/Pods/Realm/Realm/ObjectStore/src/index_set.cpp:224-252 | The builder's ranges grow by the given one, joined to the last if they touch; all counts stay right if and only if they were and no chunk beyond those reserved is added for a range of more than one index. |
| `ChunkEdits.ChunkedRangeVectorBuilder.Finalize` | reactive-mobile-demo/Pods/Realm/Realm/ObjectStore/src/index_set.cpp:254-264 | The finished chunks hold the ranges that were pushed, and are well formed if and only if all were counted right. |
| `ChunkEdits.WideRangeIsMiscounted` | reactive-mobile-demo/Pods/Realm/Realm/ObjectStore/src/index_set.cpp:243-244 | A concrete run of the builder whose result is not well formed: a range of three indices is counted as one. |
| `Dates.TimestampForDate` | reactive-mobile-demo/Pods/Realm/include/RLMUtil.hpp:144-167 | Truncating, shifting the epoch and borrowing step by step gives the split of the truncated count of nanoseconds, or a clamp; no date gives no timestamp, what is not a number gives zero, infinities are clamped; the result is one the constructor accepts. |
| `Dates.ForDateIsCanonical` | reactive-mobile-demo/Pods/Realm/include/core/realm/timestamp.hpp:43-73 | Nanoseconds lie strictly between -10^9 and 10^9 and their sign never opposes the seconds, for every real date. |
| `Dates.CastAndAdditionFit` | reactive-mobile-demo/Pods/Realm/include/RLMUtil.hpp:157-159 | Between the clamps neither the 64-bit cast nor adding the epoch overflows. |
| `Dates.ReferenceDateIs2001` | reactive-mobile-demo/Pods/Realm/include/RLMUtil.hpp:135-159 | The offset between the two epochs is the seconds of the days from 1970 to 2001, leap years counted. |
| `Dates.ClampsAreExtreme` | reactive-mobile-demo/Pods/Realm/include/RLMUtil.hpp:151-155 | Dates are clamped to the first and the last timestamp there are. |
| `Dates.WindowCountsNanoseconds` | reactive-mobile-demo/Pods/Realm/include/RLMUtil.hpp:157-166 | Between the clamps the total is the date in nanoseconds, truncated toward the reference date, plus the epoch. |
| `Dates.ThereAndBackIsClose` | reactive-mobile-demo/Pods/Realm/include/RLMUtil.hpp:137-167 | Converting there and back moves a date by less than a nanosecond, toward the reference date. |
| `Dates.ForDateIsMonotone` | reactive-mobile-demo/Pods/Realm/include/RLMUtil.hpp:151-166 | Later dates never get earlier timestamps, both clamps included. |
| `Dates.OrderIsByTotal` | reactive-mobile-demo/Pods/Realm/include/core/realm/timestamp.hpp:43-73 | The lexicographic order of timestamps is the order of their totals. |
| `Dates.RoundTripIff` | reactive-mobile-demo/Pods/Realm/include/RLMUtil.hpp:137-167 | A timestamp survives the trip to a date and back if and only if its date lies between the clamps, or it is a clamp itself. |
| `Dates.WindowOfTimestamps` | reactive-mobile-demo/Pods/Realm/include/RLMUtil.hpp:151-155 | Which timestamps lie between the clamps; at the early end some that the type can hold do not. |
| `Dates.EarlyTimestampIsClamped` | reactive-mobile-demo/Pods/Realm/include/RLMUtil.hpp:154-155 | A concrete timestamp the early clamp does not return. |
| `Transactions.Realm.BeginWrite` | reactive-mobile-demo/Pods/RealmSwift/RealmSwift/Realm.swift:183-185 | Opens a transaction on the committed data, or crashes inside one. |
| `Transactions.Realm.Commit` | reactive-mobile-demo/Pods/RealmSwift/RealmSwift/Realm.swift:213-215 | Commits what is visible and closes the transaction, or throws outside one. |
| `Transactions.Realm.CancelWrite` | reactive-mobile-demo/Pods/RealmSwift/RealmSwift/Realm.swift:249-251 | Returns to the committed data and closes the transaction, or crashes outside one. |
| `Transactions.Realm.RunBlock` | reactive-mobile-demo/Pods/RealmSwift/RealmSwift/Realm.swift:152-161 | After any script the flag, the committed and the visible data are functions of the history of actions. |
| `Transactions.Realm.Write` | reactive-mobile-demo/Pods/RealmSwift/RealmSwift/Realm.swift:152-161 | For every block: no open transaction unless it crashed; on a throw the data is what the block last committed, or the start; on a return it is what the block sees at its end. |
| `Transactions.BlockEndsIff` | reactive-mobile-demo/Pods/RealmSwift/RealmSwift/Realm.swift:152-161 | The first thing that goes wrong decides how a block ends: a throw or a commit outside a transaction throws, beginning inside one or cancelling or editing outside one crashes; a block in which nothing does finishes. |
| `Transactions.OpenIff` | reactive-mobile-demo/Pods/Realm/Realm/ObjectStore/src/shared_realm.cpp:672-697 | A transaction is open unless one was committed or cancelled and none has been begun since. |
| `Transactions.SavedAtLastCommit` | reactive-mobile-demo/Pods/Realm/Realm/ObjectStore/src/shared_realm.cpp:672-684 | What survives a throw is what was visible at the last commit of the block. |
| `Transactions.ThrowRollsBack` | reactive-mobile-demo/Pods/RealmSwift/RealmSwift/Realm.swift:132-133 | What is left of a block that throws is what it started with if and only if its last commit, if it made one, committed just that. |
| `Transactions.VisibleIsLastEdit` | reactive-mobile-demo/Pods/Realm/Realm/ObjectStore/src/shared_realm.cpp:672-697 | What is visible is the last edit that no cancel followed. |
| `Transactions.ClosedSeesSaved` | reactive-mobile-demo/Pods/Realm/Realm/ObjectStore/src/shared_realm.cpp:672-697 | With no transaction open there is nothing visible that is not saved. |
| `Transactions.CommitThenThrowKeepsTheEdit` | reactive-mobile-demo/Pods/RealmSwift/RealmSwift/Realm.swift:154-159 | A concrete block that commits and then throws is not rolled back to its start. |
| `Observation.ForEach` | reactive-mobile-demo/Pods/Realm/include/RLMObservation.hpp:115-130 | From any node the traversal terminates and visits the nodes before it backwards, then the node and those after it. |
| `Observation.EveryNodeOnce` | reactive-mobile-demo/Pods/Realm/include/RLMObservation.hpp:115-130 | That order holds every node of the chain exactly once. |
| `Observation.AnyStartVisitsTheSame` | reactive-mobile-demo/Pods/Realm/include/RLMObservation.hpp:115-130 | So what is visited does not depend on the start. |
| `Observation.InsertBehindHead` | reactive-mobile-demo/Pods/Realm/Realm/RLMObservation.mm:144-152 | Linking a node in behind the head keeps the chain well linked. |
| `Observation.Detach` | reactive-mobile-demo/Pods/Realm/Realm/RLMObservation.mm:67-75 | A node behind the head unlinks itself and leaves the others in order. |
| `Observation.DetachHead` | reactive-mobile-demo/Pods/Realm/Realm/RLMObservation.mm:83-86 | The head leaves and the next node becomes a head. |
| `Observation.Observed.SetRow` | reactive-mobile-demo/Pods/Realm/Realm/RLMObservation.mm:140-155 | An info joins the one chain of its row behind its head, or starts a new chain; every row keeps at most one chain. |
| `Observation.Observed.Destroy` | reactive-mobile-demo/Pods/Realm/Realm/RLMObservation.mm:66-93 | Destroying an info takes exactly it out of exactly its chain, replacing the head or dropping an empty chain by moving the last one into its place; the info of an unmanaged object is in no chain, and no chain changes. |

## Left out

- DiffTheorems.DiffRefinesPlain: one direction, for updates that describe an object twice, where what is compared may have been written before; where none is, `ModesPart.CreateModesPartIff` has both. `Reuse.SafeIsFaithful` gives conditions on the value alone.
- DiffTheorems.AssignModesAgree: one direction where elements describe an object twice; otherwise `ModesPart.AssignModesPartAsForetold` has both. It asks for an open transaction: outside one the plain mode throws at once, the diff mode only at its first change, so lists that need none part the modes.
- ModesPart.CreateModesPartIff: not where a migration creates over keys that are there, since keys are then compared too; `DiffTheorems.ModesPartIff` covers that in terms of the run. What is left behind where both modes raise is not compared.
- Repetition.CreateWritesInVainIff: not where a migration writes keys, nor for updates that describe an object twice, nor in the diff mode where a row without a key is reused, which the same run may have written before; `Writes.CreateWritesOnlyChangesIff` covers those in terms of the run.
- Additions.CreateAdds: an inequality in the diff mode, since a reused row is not given its defaults and what they would have added.
- InBounds.DiffInBounds: one direction; both conditions have an input that shows they are needed (`InBounds.SelfNestingLeavesTheBounds`, `InBounds.ReenteringLeavesTheBounds`), and `Reuse.NestingKeyedReentersNone` tells the second from the value.
- Writes.CreateWritesOnlyChangesIff: updates in the diff mode that come back to an object while they populate it are not covered; what was compared may then be stale. Plain creation and creates without update are covered on every input.
- Room.DiffWritesOnlyChanges: one direction, with a condition on the value and the lists that are there; objects without keys whose lists describe others are left to `Writes.CreateWritesOnlyChangesIff` and `Repetition.CreateWritesInVainIff`, which have both.
- Flat.RepeatingChangesNothing: for types without links; with them a repeated create adds a second row for every described object that has no key.
- IndexQueries.Unshift: requires a non-member, as the assertion in the source does.
- The `REALM_ENABLE_SYNC` branches: remote behaviour behind declarations.
- Column numbers: `table_column` is the position of the property.
- Default values that describe objects, and the Cocoa accessor context: only defaults without nested creates.
- Linking-objects and `Any` columns, which are read-only or unsupported here.
- Answers.CreateAnswers: in the diff mode not where a migration writes keys, nor updates that describe an object twice or offer a linked row without a key for reuse; a reused row needs nothing that is required. The plain mode is covered on every input.
- Answers.AssignAnswers: the same in the diff mode.
- Depth.CreateStoresBelow: not updates that describe an object twice, where a later description overwrites an earlier one; nor the diff mode where it writes keys or is misled.
- Depth.SetPropertyValueStores: the same; and not where a migration sets a key, which `Flat.SetPropertyValueIff` covers.
- Storage.CreateStores: an update must not describe its own key again below it, nor in the diff mode come back to its own row without a key (`Storage.ReenteredRowIsOverwritten`); and where a migration creates over keys that are there and only differences are written, no key described below may be what a null cell reads as.
- A null assigned to an optional list: core's behaviour is not in the source; the model raises an error.
- A null element for a required string, data or date list: core appends a default element before it throws, the model throws when it unboxes.
- Deleting rows, detached rows and versions: tables only grow within the modelled calls, and a row that is not in its table stands for a detached one.
- Widths of stored integers, NaN among stored doubles, and IEEE rounding of dates: payloads are opaque and dates exact.
- Change notifications, threads, files and failures to commit.
- Lists that alias the collection assigned to them in Swift.
- Observers that destroy infos during a traversal, and rows whose index changes.
- Edits of an index set by other sets or by shifting (`add_shifted`, `insert_at`, `erase_at`, `remove`), and `find` from a position other than the beginning; chunk sizes are taken to be even, as both in the source are.
- The Rails server, the Siesta and Redux layers and the view controllers: glue around libraries.
