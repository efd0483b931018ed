# MoveEasy service layer in Dafny

MoveEasy is a move-planning backend. A user owns **moves**. A move has a checklist of
**tasks**, a set of **rooms**, an inventory of **items**, and the **boxes** the items are
packed into. Each box carries a QR code and goes through three milestones: packed, loaded and
delivered. This project models the backend's service layer and the request validation its
routes run in front of it:

- the five services `moveService`, `roomService`, `taskService`, `itemService`, `boxService`;
- the five migrations that define their tables;
- the `express-validator` rule sets in the five route files.

The database is an immutable `State`: one `seq` of rows per table, with these constraints:

- ids are pairwise distinct;
- QR codes are unique;
- every foreign key names an existing row (`Schema.Valid`).

Every service operation is a pure function or method from a state to a new state and a
result, and each service error the routes turn into a 404 is a `Failure` value. The
operations compose a small SQL vocabulary:

- `Tables`: filter, count, sum, update-by-id, delete-by-id.
- `Query`: `ORDER BY` with NULL as the greatest value, and `GROUP BY` with `COUNT`/`SUM`.
- `Text`: `ilike '%s%'` and the validator's `trim()`.
- `Json`: the `JSON.stringify` / `JSON.parse` of an item's properties.
- `Cascade`: the `ON DELETE CASCADE` / `SET NULL` actions the migrations declare.

Values the running system draws from outside are parameters of the operations:

- fresh row ids and QR tokens, with preconditions that say they are fresh;
- the clock (`now`);
- the format checkers `isUUID`, `isURL` and `isISO8601` (`Validation.Formats`).

Modules (one file each):

- `Wrappers`: `Option`, `Result`, `Failure`.
- `Seqs`: two regrouping facts about sequence concatenation.
- `Text`, `Json`, `Tables`, `Query`.
- `Schema`: the rows and constraints of the migrations.
- `Ownership`: the `JOIN moves … WHERE user_id` guard.
- `Cascade`.
- `MoveService`, `RoomService`, `TaskService`, `TaskBatch` (reorder and bulk operations),
  `TaskTemplates`, `ItemService`, `BoxService`.
- `Validation`.

## Model

| member | source | states |
|---|---|---|
| Schema.EmptyValid | backend/src/migrations/20250910021623_create_moves_table.js:6-20 | a database with no rows meets every key, uniqueness and foreign-key constraint of the migrations |
| Ownership.OwnedRoomRow | backend/src/services/roomService.ts:52-64 | a room visible through the ownership join is the row its id names, and its move belongs to the user |
| Ownership.OwnedBoxRow | backend/src/services/boxService.ts:108-124 | a box visible through the ownership join is the row its id names, and its move belongs to the user |
| Ownership.OwnedItemRow | backend/src/services/itemService.ts:135-158 | an item visible through the ownership join is the row its id names, and its move belongs to the user |
| Text.Trim | backend/src/routes/rooms.ts:17-20 | the trimmed string is a contiguous slice of the input, starts and ends with a non-space, and only whitespace was removed around it |
| Text.TrimIdempotent | backend/src/routes/rooms.ts:17-20 | trimming a trimmed string changes nothing |
| Text.ContainsIgnoringCase | backend/src/services/taskService.ts:43-48 | `ilike '%s%'` holds exactly when the lower-cased pattern occurs at some position of the lower-cased text |
| Text.StrLeqTotal | backend/src/services/roomService.ts:42-44 | the code-point string order the model gives `ORDER BY name` (SQLite's `BINARY` collation) compares any two strings |
| Text.StrLeqTransitive | backend/src/services/roomService.ts:42-44 | the string order is transitive |
| Json.Put | backend/src/services/itemService.ts:59-62 | how the parse stores a member: the key then maps to the new value, every other key keeps its value, and a new key is appended at the end (integer-like keys excepted, see Left out) |
| Json.DecodeEncode | backend/src/services/itemService.ts:51-61 | parsing the JSON text written for a properties object gives that object back |
| Json.EscapeStrRoundTrip | backend/src/services/itemService.ts:51-61 | the string escaping of `JSON.stringify` is undone by the string parser, whatever follows the closing quote |
| Tables.Filter | backend/src/services/taskService.ts:29-30 | `WHERE`: the result holds each row satisfying the condition with its original multiplicity, and no other row |
| Tables.CountPartition | backend/src/services/itemService.ts:303-304 | the rows that satisfy a condition and the rows that do not add up to all rows |
| Tables.IndexOf | backend/src/services/taskService.ts:54-59 | the first position of a row with that key, found exactly when some row has it |
| Tables.Find | backend/src/services/moveService.ts:50-58 | `.first()` on a condition: a row of the table satisfying it, found exactly when one exists |
| Tables.Lookup | backend/src/services/taskService.ts:54-59 | the row with that key, found exactly when one exists, and the only one when keys are distinct |
| Tables.Without | backend/src/services/taskService.ts:83-88 | `DELETE … WHERE id = k`: removes exactly the rows with that key, keeps the others and keeps unique keys unique, one row fewer when the key was present |
| Tables.WithoutKeepsOrder | backend/src/services/taskService.ts:83-88 | the rows left after the delete are exactly the `WHERE id <> k` selection, in table order |
| Tables.UpdateWhere | backend/src/services/taskService.ts:75-78 | `UPDATE … WHERE id = k`: rewrites exactly the row with that key, position by position, and keeps every key |
| Tables.AppendRow | backend/src/services/taskService.ts:8-19 | inserting a row under a fresh key keeps the keys distinct and makes the key present |
| Query.SortBy | backend/src/services/taskService.ts:29-33 | `ORDER BY`: the result is a permutation of the input, ordered by the key |
| Query.KeyLeqTotal | backend/src/services/taskService.ts:31-33 | any two rows are comparable under a multi-column `ORDER BY` with ascending and descending parts |
| Query.KeyLeqTransitive | backend/src/services/taskService.ts:31-33 | the multi-column order is transitive |
| Query.DatumLeqTotal | backend/src/services/itemService.ts:118-121 | any two column values compare, NULL above every number and string |
| Query.GroupBy | backend/src/services/itemService.ts:328-336 | `GROUP BY … ORDER BY key`: one group per distinct key in strictly increasing order, each with the number of rows that have that key (never 0) and the sum of their values; the counts add up to the rows and the sums to the total |
| Cascade.KeepRef | backend/src/migrations/20250910024958_create_items_table.js:9-10 | `ON DELETE SET NULL`: a reference survives exactly when its row still exists, and otherwise becomes NULL |
| Cascade.KeptTasks | backend/src/migrations/20250910022849_create_tasks_table.js:8 | `ON DELETE CASCADE`: exactly the tasks of surviving moves remain |
| Cascade.KeptRooms | backend/src/migrations/20250910024955_create_rooms_table.js:8 | exactly the rooms of surviving moves remain |
| Cascade.KeptBoxesFrom | backend/src/migrations/20250910025102_create_boxes_table.js:8-11 | every remaining box belongs to a surviving move and differs from its old row at most in a destination set to NULL |
| Cascade.KeptBoxesKeep | backend/src/migrations/20250910025102_create_boxes_table.js:8-11 | every box of a surviving move remains, its destination set to NULL if that room is gone |
| Cascade.KeptItemsFrom | backend/src/migrations/20250910024958_create_items_table.js:8-10 | every remaining item belongs to a surviving move and differs from its old row at most in room and box references set to NULL |
| Cascade.KeptItemsKeep | backend/src/migrations/20250910024958_create_items_table.js:8-10 | every item of a surviving move remains, with its vanished room or box reference set to NULL |
| Cascade.CascadeValid | backend/src/migrations/20250910021623_create_moves_table.js:8 | whatever set of moves survives, the cascading deletes leave a database meeting every constraint |
| Cascade.RemoveRoom | backend/src/services/roomService.ts:92-94 | deleting a room removes exactly that room and sets the item and box references to it to NULL, position by position |
| Cascade.RemoveRoomValid | backend/src/migrations/20250910024955_create_rooms_table.js:8 | deleting a room keeps every constraint |
| Cascade.RemoveBox | backend/src/services/boxService.ts:159-166 | deleting a box removes exactly that box and sets `box_id` to NULL on the items in it |
| Cascade.RemoveBoxValid | backend/src/migrations/20250910024958_create_items_table.js:10 | deleting a box keeps every constraint |
| Cascade.RemoveTask | backend/src/services/taskService.ts:83-86 | deleting a task removes exactly the rows with that id and touches no other table |
| Cascade.RemoveItem | backend/src/services/itemService.ts:217-224 | deleting an item removes exactly the rows with that id and touches no other table |
| Cascade.RemoveUser | backend/src/migrations/20250910021623_create_moves_table.js:8 | deleting a user removes exactly their moves, with everything that cascades from them |
| Cascade.RemoveUserValid | backend/src/migrations/20250910021623_create_moves_table.js:8 | after a user is deleted the constraints hold and every remaining task belongs to another user's move |
| MoveService.CreateMove | backend/src/services/moveService.ts:5-29 | the new move belongs to the user, takes the request's fields (both locations whole, optional coordinates included) and the default status `planning`; the moves table becomes the earlier moves followed by exactly this row, the row `.returning('*')` gives back |
| MoveService.GetMovesByUserId | backend/src/services/moveService.ts:31-48 | exactly the user's moves, each once, newest first |
| MoveService.GetMoveById | backend/src/services/moveService.ts:50-72 | found exactly when the move exists and belongs to the user |
| MoveService.UpdateMove | backend/src/services/moveService.ts:74-105 | an update setting no column is refused; otherwise it succeeds exactly for an owned move, writes the truthy fields (a household size whenever given) into the owned row at its position; the moves table keeps its length, every other move stays at its position, and the other tables are unchanged |
| MoveService.UpdateMoveStatus | backend/src/services/moveService.ts:116-139 | found exactly for an owned move; that row, at its position, gets the new status and nothing else; the moves table keeps its length and every other row, and the other tables are unchanged |
| MoveService.DeleteMove | backend/src/services/moveService.ts:107-114 | `true` exactly for an owned move; the move is gone and the constraints still hold |
| MoveService.CreateThenGet | backend/src/services/moveService.ts:5-72 | a created move is visible to its owner and to no other user |
| MoveService.DeleteMoveCascades | backend/src/services/moveService.ts:107-114 | deleting a move deletes exactly its tasks and rooms and all its boxes and items, keeps every row of other moves and sets their references into the deleted move to NULL |
| RoomService.CreateRoom | backend/src/services/roomService.ts:8-27 | fails with not-found exactly when the user does not own the move; otherwise appends the room and keeps the constraints |
| RoomService.GetRoomsByMove | backend/src/services/roomService.ts:32-47 | for an owned move, exactly that move's rooms, sorted by name |
| RoomService.GetRoomById | backend/src/services/roomService.ts:52-64 | found exactly when the room's move belongs to the user |
| RoomService.UpdateRoom | backend/src/services/roomService.ts:69-83 | fails exactly when the user does not own the room; otherwise writes only the supplied fields and the update time on that room |
| RoomService.DeleteRoom | backend/src/services/roomService.ts:88-95 | fails exactly when the user does not own the room; otherwise the room is gone, every item and box that named it has that reference set to NULL in place and keeps every other field and its position, and moves and tasks are unchanged |
| RoomService.RoomTotals | backend/src/services/roomService.ts:110-120 | the item count, the packed count and the value sum of one room's LEFT JOIN |
| RoomService.StatOf | backend/src/services/roomService.ts:113-120 | a room's statistics row: its id and name, item and packed counts with packed ≤ items, and the value sum |
| RoomService.GetRoomStats | backend/src/services/roomService.ts:100-123 | fails exactly when the move is not owned; otherwise one statistics row per room of the move; the model lists them in table order, one of the orders the unordered `GROUP BY` may return (see Left out) |
| RoomService.RoomStatsCoverRooms | backend/src/services/roomService.ts:110-113 | every room of the move appears, including rooms without items |
| RoomService.RoomStatsOnlyRooms | backend/src/services/roomService.ts:110-113 | every statistics row is a room of the move and no room appears twice |
| TaskService.TasksOf | backend/src/services/taskService.ts:29-30 | exactly the move's tasks, with their multiplicity |
| TaskService.MaxOrderIndex | backend/src/services/taskService.ts:280-283 | `MAX(order_index)`: NULL for no rows, otherwise an index some task has and no task exceeds |
| TaskService.NextOrderIndex | backend/src/services/taskService.ts:279-286 | above every order index of the move, one past the largest one, and 1 for a move without tasks |
| TaskService.CreateTask | backend/src/services/taskService.ts:7-22 | fails exactly when the move does not exist; otherwise appends a pending task with the request's fields, priority defaulting to 0, and the order index `getNextOrderIndex` gives: one past the move's largest order index, or 1 when the move has no task |
| TaskService.CreateTwiceIncreases | backend/src/services/taskService.ts:7-22 | two creates in a row on one move give strictly increasing order indices |
| TaskService.GetTasksByMoveId | backend/src/services/taskService.ts:24-52 | exactly the move's tasks passing every filter given (an empty filter does not apply), sorted by order index, then priority descending, then creation time |
| TaskService.ListAllIsPermutation | backend/src/services/taskService.ts:24-52 | without filters the listing is a permutation of the move's tasks |
| TaskService.ListingCounts | backend/src/services/taskService.ts:261-268 | counting over the listing equals counting over the move's tasks |
| TaskService.GetTaskById | backend/src/services/taskService.ts:54-60 | found exactly when a task has that id, in whatever move |
| TaskService.UpdateTask | backend/src/services/taskService.ts:62-81 | found exactly when a task has that id; that task gets the supplied fields and the update time, every other row is unchanged |
| TaskService.DeleteTask | backend/src/services/taskService.ts:83-89 | `true` exactly when a task had that id; afterwards none has it and every other task remains |
| TaskService.CompletionRate | backend/src/services/taskService.ts:269-274 | 0 without tasks; otherwise the whole number nearest to the exact percentage, halves rounded up, 0 for none completed and 100 for all (the source's floating-point rounding can differ by one on a half, see Left out) |
| TaskService.StatsOf | backend/src/services/taskService.ts:263-274 | the total, the four status counts and the completion rate of a list of tasks, rounded as `CompletionRate` states |
| TaskService.GetTaskStats | backend/src/services/taskService.ts:253-277 | the move's task counts by status, each at most the total, and the completion rate rounded as `CompletionRate` states |
| TaskService.StatusCountsPartition | backend/src/services/taskService.ts:263-270 | the four status counts never exceed the total, and add up to it exactly when every task carries one of the four statuses |
| TaskBatch.PositionOf | backend/src/services/taskService.ts:95 | the index a task id sits at in the submitted list, absent exactly when it is not listed |
| TaskBatch.PositionOfDistinct | backend/src/services/taskService.ts:95 | with distinct ids, an id's position is its index |
| TaskBatch.ReorderedDistinct | backend/src/services/taskService.ts:95-103 | with distinct ids the outcome is determined: a listed task of the move takes the index its id sits at |
| TaskBatch.ReorderStepExtends | backend/src/services/taskService.ts:95-100 | running the statement for position `i` after those for the earlier positions leaves a task as the first `i + 1` statements may leave it |
| TaskBatch.ReorderTasks | backend/src/services/taskService.ts:91-106 | for any list, repeats included: each listed task of the move gets one of the positions its id occurs at and the update time, all other rows are unchanged, and the result is the move's listing |
| TaskBatch.ReorderListsInSubmittedOrder | backend/src/services/taskService.ts:91-106 | after a reorder with distinct ids the listing shows the submitted tasks in the submitted order, each at its position |
| TaskBatch.Found | backend/src/services/taskService.ts:113-127 | the number of listed ids that name a task, at most the list's length |
| TaskBatch.DeleteOne | backend/src/services/taskService.ts:115-118 | one delete of the loop: it succeeds exactly when the task existed and was not already deleted |
| TaskBatch.BulkDelete | backend/src/services/taskService.ts:108-134 | success plus failed is the number of ids; success is the number of distinct existing ids; exactly the listed tasks are gone |
| TaskBatch.SetStatusOne | backend/src/services/taskService.ts:119-126 | one status update of the loop: it succeeds exactly when the task exists |
| TaskBatch.BulkSetStatus | backend/src/services/taskService.ts:119-134 | success counts listed ids that name a task, failed the rest, and exactly the listed tasks get the status |
| TaskBatch.BulkTaskOperation | backend/src/services/taskService.ts:108-134 | delete, complete and cancel as above; an operation outside the three changes nothing and counts nothing |
| TaskTemplates.GetTaskTemplates | backend/src/services/taskService.ts:136-232 | the ten default templates, numbered 1 to 10 in order, with distinct ids, each acceptable to the create rules |
| TaskTemplates.Select | backend/src/services/taskService.ts:235-236 | the catalogue templates whose id is requested, in catalogue order |
| TaskTemplates.SelectKeepsOrder | backend/src/services/taskService.ts:236 | the selection keeps increasing catalogue order |
| TaskTemplates.SelectKeepsDistinct | backend/src/services/taskService.ts:236 | the selection has distinct ids |
| TaskTemplates.SelectSameRequest | backend/src/services/taskService.ts:236 | only which ids are requested matters, not their order or repetition |
| TaskTemplates.SelectOncePerTemplate | backend/src/services/taskService.ts:236 | each requested catalogue template is selected exactly once |
| TaskTemplates.ApplyTaskTemplates | backend/src/services/taskService.ts:234-251 | fails exactly when something is selected and the move does not exist; otherwise one task per selected template, in catalogue order, with increasing order indices |
| TaskTemplates.CreateAll | backend/src/services/taskService.ts:238-250 | for any selection: fails exactly when it is non-empty and the move is missing; otherwise the created tasks are appended in selection order, each made from its template with a fresh id |
| ItemService.ReadProps | backend/src/services/itemService.ts:59-62 | NULL or empty text reads as no properties; the only failure is text that does not parse |
| ItemService.PropsRoundTrip | backend/src/services/itemService.ts:51-61 | the properties an insert writes read back as the ones supplied |
| ItemService.CheckRefs | backend/src/services/itemService.ts:18-40 | passes exactly when each given room and box id names one of the user's rows; a bad room is reported before a bad box |
| ItemService.RefsExist | backend/src/migrations/20250910024958_create_items_table.js:9-10 | the foreign-key check on `room_id` and `box_id`: each is NULL or names an existing row |
| ItemService.OwnedRefsExist | backend/src/services/itemService.ts:18-40 | references that pass the ownership checks also pass the foreign-key check |
| ItemService.CreateItem | backend/src/services/itemService.ts:8-65 | fails with not-found without the move, then on a bad room or box; otherwise appends the item with the request's fields, missing flags false and the properties read back as supplied |
| ItemService.ViewOf | backend/src/services/itemService.ts:135-158 | an item as read: the row, its parsed properties, the joined room name and box label; it fails only when the properties do not parse |
| ItemService.OwnedItem | backend/src/services/itemService.ts:138-142 | found exactly when the item's move belongs to the user, and it is the only row with that id |
| ItemService.GetItemById | backend/src/services/itemService.ts:135-158 | not-found exactly when the user does not own the item; otherwise the joined view of that row |
| ItemService.ItemColumnDefined | backend/src/services/itemService.ts:118-121 | a sort column has a value exactly when it is a column of the items table |
| ItemService.ViewAll | backend/src/services/itemService.ts:124-129 | the `.map` over the rows succeeds exactly when every row's properties parse, and gives one view per row in order |
| ItemService.MatchesIsSelected | backend/src/services/itemService.ts:96-116 | the `WHERE` clause a listing runs holds exactly when every given filter holds |
| ItemService.GetItemsByMove | backend/src/services/itemService.ts:70-130 | not-found for a move the user does not own, an error for an unknown sort column; otherwise exactly the move's items passing every filter, sorted by the requested column and direction |
| ItemService.ListItems | backend/src/services/itemService.ts:70-123 | the listing rows are exactly the move's items the filters select, counted with multiplicity, in the requested order; their properties parse when the table's do |
| ItemService.UpdateItem | backend/src/services/itemService.ts:163-212 | not-found unless the user owns the item; otherwise succeeds exactly when the references pass; writes only the supplied fields and the update time on that row |
| ItemService.PatchRows | backend/src/services/itemService.ts:201-204 | the update keeps the schema valid, patches that item's row only and touches no other table |
| ItemService.DeleteItem | backend/src/services/itemService.ts:217-224 | fails exactly as the ownership read does; otherwise exactly that item is gone |
| Ownership.OwnedBox | backend/src/services/itemService.ts:236-241 | found exactly when the box's move belongs to the user; the row found has that id and is a row of the table |
| ItemService.PlaceInBox | backend/src/services/itemService.ts:236-262 | the box half of moving an item: the item's box becomes the box exactly when both are in the same move |
| ItemService.MoveItemToBox | backend/src/services/itemService.ts:229-262 | item not-found, then box not-found, then a refusal when the box is in another move; otherwise only that item's box and update time change |
| ItemService.OwnedItemUnique | backend/src/services/itemService.ts:138-142 | the owned item is the only row with its id |
| ItemService.OwnedBoxUnique | backend/src/services/itemService.ts:236-241 | the owned box is the only row with its id |
| ItemService.RemoveItemFromBox | backend/src/services/itemService.ts:267-285 | not-found exactly when the user does not own the item; otherwise only that item's box becomes NULL and its update time changes |
| ItemService.SetBox | backend/src/services/itemService.ts:248-254 | setting an item's box to an existing box or NULL keeps the schema valid, changes only that item's box and update time, and touches no other table |
| ItemService.RemoveItemFromBoxIdempotent | backend/src/services/itemService.ts:267-285 | taking an item out of its box twice gives the same state as once |
| ItemService.ItemStatsOf | backend/src/services/itemService.ts:300-310 | the item counts and value sum of a list of items |
| ItemService.GetItemStats | backend/src/services/itemService.ts:290-313 | fails exactly when the move is not owned; otherwise the total, packed, fragile and special-handling counts and the value sum over the move's items, each count at most the total |
| ItemService.PackedPartition | backend/src/services/itemService.ts:303-304 | packed and unpacked items add up to the total |
| ItemService.StatsMatchListing | backend/src/services/itemService.ts:70-130 | the unfiltered listing has as many items, and as many packed, fragile and special-handling ones, as the statistics report |
| ItemService.UnfilteredListing | backend/src/services/itemService.ts:70-130 | without filters the listing succeeds and holds exactly the move's items, counted with multiplicity |
| ItemService.GetItemsByCategory | backend/src/services/itemService.ts:318-339 | fails exactly when the move is not owned; otherwise one row per distinct category in order, with its item count and value sum |
| ItemService.SumValuesIsSum | backend/src/services/itemService.ts:307 | the grouped value total equals the plain `SUM(estimated_value)` |
| ItemService.CategoriesMatchStats | backend/src/services/itemService.ts:290-339 | the category counts add up to the item total and the category sums to the value total of the statistics |
| BoxService.QrCode | backend/src/services/boxService.ts:31-32 | a code is `BOX-` followed by the token |
| BoxService.QrCodeInjective | backend/src/services/boxService.ts:31-32 | distinct tokens give distinct codes |
| BoxService.CheckDestination | backend/src/services/boxService.ts:19-29 | passes exactly when no destination is given or it names one of the user's rooms |
| BoxService.CheckedDestinationExists | backend/src/services/boxService.ts:19-29 | a destination that passes the check names an existing room |
| BoxService.AppendBoxValid | backend/src/migrations/20250910025102_create_boxes_table.js:8-11 | inserting a box with a fresh id, an unused code and existing references keeps every constraint |
| BoxService.CreateBox | backend/src/services/boxService.ts:9-46 | not-found without the move, then without the destination; otherwise appends the box with a fresh `BOX-` code, type defaulting to `standard`, all milestones unset |
| BoxService.GetBoxById | backend/src/services/boxService.ts:108-124 | found exactly when the box's move belongs to the user, with the destination room's name |
| BoxService.MatchesIsSelected | backend/src/services/boxService.ts:69-95 | the `WHERE` clause of a listing holds exactly when every given filter holds |
| BoxService.BoxColumnDefined | backend/src/services/boxService.ts:97-100 | a sort column has a value exactly when it is a column of the boxes table |
| BoxService.GetBoxesByMove | backend/src/services/boxService.ts:51-103 | not-found for a move the user does not own, an error for an unknown sort column; otherwise exactly the move's boxes passing every filter, sorted as requested, with destination names |
| BoxService.ListBoxes | backend/src/services/boxService.ts:51-100 | the listing rows are exactly the move's boxes the filters select, counted with multiplicity, in the requested order |
| BoxService.BoxUpdateValid | backend/src/migrations/20250910025102_create_boxes_table.js:8-11 | rewriting one box without touching its key, move or code, with an existing destination, keeps every constraint |
| BoxService.UpdateBox | backend/src/services/boxService.ts:129-154 | not-found unless owned; then the destination check; otherwise only the supplied fields and the update time of that box change, and its QR code is kept |
| BoxService.PatchRows | backend/src/services/boxService.ts:145-151 | the update keeps the schema valid, patches that box's row only, keeps its QR code and touches no other table |
| BoxService.DeleteBox | backend/src/services/boxService.ts:159-166 | succeeds exactly for an owned box; the box is gone and its items are unlinked |
| BoxService.MarkRow | backend/src/services/boxService.ts:171-223 | marking a milestone sets its flag and its time, and keeps the other two milestones and every other column apart from the update time |
| BoxService.MarkBox | backend/src/services/boxService.ts:171-223 | succeeds exactly for an owned box and changes only that box, as `MarkRow` says |
| BoxService.MarkRows | backend/src/services/boxService.ts:175-182 | the mark keeps the schema valid, sets the milestone on that box's row only and touches no other table |
| BoxService.MarkIdempotent | backend/src/services/boxService.ts:171-223 | marking a milestone twice at the same time is the same as marking it once |
| BoxService.MarksCommute | backend/src/services/boxService.ts:171-223 | marking two different milestones at the same time gives the same box in either order |
| BoxService.ContentsOf | backend/src/services/boxService.ts:234-245 | the box's items as views: succeeds exactly when every row's properties parse |
| BoxService.GetBoxContents | backend/src/services/boxService.ts:228-246 | not-found unless owned; otherwise exactly the items in the box, sorted by name, each with its parsed properties and room name |
| BoxService.GetBoxStats | backend/src/services/boxService.ts:251-272 | fails exactly when the move is not owned; otherwise the total and the packed, loaded and delivered counts, each at most the total |
| BoxService.MilestoneCountsOverlap | backend/src/services/boxService.ts:260-268 | the three milestone counts can add up to more than the total, because one box counts in each |
| BoxService.MilestoneCountsSum | backend/src/services/boxService.ts:260-268 | over any boxes, the three milestone counts add up to at least the boxes with a milestone, and to exactly that number when no box has two or more milestones |
| BoxService.MilestoneCountsExceedTotal | backend/src/services/boxService.ts:260-268 | for every state: milestone counts adding up to more than the total mean some box of the move has two or more milestones; they add up to the boxes with a milestone exactly when no box has two |
| BoxService.GetBoxesByType | backend/src/services/boxService.ts:277-297 | one row per distinct box type in order, with its count, the counts adding up to the move's boxes |
| BoxService.TypesMatchStats | backend/src/services/boxService.ts:277-297 | the per-type counts add up to the total of the box statistics |
| BoxService.GenerateQrCode | backend/src/services/boxService.ts:302-316 | succeeds exactly for an owned box; a box with a code keeps it and the state is unchanged; otherwise it gets `BOX-` and the token |
| BoxService.IssueCode | backend/src/services/boxService.ts:308-311 | storing an unused code on a box keeps the schema valid, changes only that box's code and touches no other table |
| BoxService.CodeIssueValid | backend/src/migrations/20250910025102_create_boxes_table.js:10 | issuing an unused code keeps the QR codes unique |
| BoxService.QrCodeStable | backend/src/services/boxService.ts:302-316 | a second call, with any token, returns the same code and changes nothing |
| Validation.TrimOptIdempotent | backend/src/routes/items.ts:22-25 | trimming an optional field twice is trimming it once |
| Validation.ValidateCreateTask | backend/src/routes/tasks.ts:17-39 | accepts exactly the requests the rule set passes; an accepted request has a trimmed name and category that fit their columns |
| Validation.CreateTaskIdempotent | backend/src/routes/tasks.ts:17-39 | an accepted request passes the rules again unchanged |
| Validation.ValidateUpdateTask | backend/src/routes/tasks.ts:41-73 | accepts exactly what the rule set passes; a status gets through only if it is one of the four |
| Validation.ValidateTaskQuery | backend/src/routes/tasks.ts:117-132 | accepts exactly what the query rules pass; a filter that gets through is non-blank, so it applies |
| Validation.ValidateReorder | backend/src/routes/tasks.ts:75-82 | accepts exactly a non-empty list of UUIDs, unchanged |
| Validation.ValidatedReorderMayRepeat | backend/src/routes/tasks.ts:75-82 | the rules let a task id through twice; the reorder then leaves that task at either of its two positions |
| Validation.ValidateBulk | backend/src/routes/tasks.ts:84-94 | accepts exactly a non-empty list of UUIDs with one of the three operations, so the bulk loop always acts |
| Validation.ValidateTemplateIds | backend/src/routes/tasks.ts:96-103 | accepts exactly a non-empty list, unchanged |
| Validation.ValidatedTemplateSelection | backend/src/services/taskService.ts:234-251 | an accepted list selects some template exactly when it names a catalogue id, so `applyTaskTemplates` may create nothing |
| Validation.UnknownTemplateAccepted | backend/src/routes/tasks.ts:96-103 | an id that is no catalogue id passes the rules and selects no template |
| Validation.ValidateCreateMove | backend/src/routes/moves.ts:10-26 | accepts exactly complete addresses, a date and a positive household size |
| Validation.ValidatedCreateMoveKeepsRules | backend/src/services/moveService.ts:5-15 | the create rules accept exactly the requests whose stored move has admitted fields and complete addresses, so validated creates keep both true of every move |
| Validation.ValidateUpdateMove | backend/src/routes/moves.ts:28-34 | accepts exactly what the update rules pass; a given household size is positive |
| Validation.ValidatedUpdateMoveKeepsRules | backend/src/services/moveService.ts:74-87 | a validated update keeps every move's date, status, household size and size estimate admitted |
| Validation.UpdateMayBlankAddress | backend/src/routes/moves.ts:28-34 | a replacement address with empty fields gets through the update rules and is stored on the owned move, so complete addresses are not kept |
| Validation.ValidateMoveStatus | backend/src/routes/moves.ts:36-38 | accepts exactly one of the four move statuses |
| Validation.ValidatedStatusKeepsRules | backend/src/services/moveService.ts:116-121 | on an owned move, the rules accept exactly the statuses whose update keeps every move's fields admitted |
| Validation.ValidateCreateRoom | backend/src/routes/rooms.ts:16-25 | accepts exactly a trimmed name of 1 to 100 characters and a description of at most 500; the name then fits its column |
| Validation.ValidateUpdateRoom | backend/src/routes/rooms.ts:65-75 | the same bounds with each field optional |
| Validation.CreateRoomIdempotent | backend/src/routes/rooms.ts:16-25 | an accepted room validates again to itself |
| Validation.ValidateCreateItem | backend/src/routes/items.ts:16-58 | accepts exactly what the create rules pass; the name, condition and category then fit their columns |
| Validation.ValidateUpdateItem | backend/src/routes/items.ts:142-185 | the create rules with every field optional |
| Validation.ValidateItemQuery | backend/src/routes/items.ts:68-102 | accepts exactly what the query rules pass; the sort column and direction are then from the allowed lists |
| Validation.ValidatedItemQueryLists | backend/src/routes/items.ts:68-102 | a validated item listing of an owned move does not fail on its sort column |
| Validation.ValidatedSortOrder | backend/src/routes/items.ts:96-100 | the validated direction sorts descending exactly when it is `desc` |
| Validation.ValidateMoveToBox | backend/src/routes/items.ts:205-208 | accepts exactly a box id that is a UUID, unchanged |
| Validation.ValidatedBoxIdChecked | backend/src/services/itemService.ts:229-262 | an accepted box id is still checked: the move succeeds exactly for the user's box in the item's move, fails only with a box error otherwise, and files the item under that box |
| Validation.ValidateCreateBox | backend/src/routes/boxes.ts:16-33 | accepts exactly what the create rules pass; the label and type then fit their columns |
| Validation.BoxTypesFit | backend/src/migrations/20250910025102_create_boxes_table.js:12 | every accepted box type, and the default, fits the type column |
| Validation.CreatedBoxFits | backend/src/routes/boxes.ts:16-33 | a box created from a validated request, with a token of at most 36 characters, fits the label, type and QR code columns |
| Validation.ValidateUpdateBox | backend/src/routes/boxes.ts:116-146 | accepts exactly what the update rules pass |
| Validation.FlagsUnordered | backend/src/routes/boxes.ts:116-146 | the rules accept a box marked delivered but neither packed nor loaded |
| Validation.ValidateBoxQuery | backend/src/routes/boxes.ts:43-76 | accepts exactly what the query rules pass |
| Validation.ValidatedBoxQueryLists | backend/src/routes/boxes.ts:43-76 | a validated box listing fails exactly when the move is not the user's |

## Left out

- ItemService.GetItemStats: `AVG(estimated_value)` is floating point and is not computed. The statistics return the sum and the number of valued items that define it. `estimated_value` is whole cents.
- TaskService.CompletionRate: the source computes `Math.round((completed / total) * 100)` on doubles. The model rounds the exact percentage half up. The two differ when the exact percentage ends in .5 but the double product falls just below it: for 23 of 40, `(23 / 40) * 100` is 57.49999999999999, so the source gives 57 and the model 58 (likewise 14 against 15 for 29 of 200). `StatsOf` and `GetTaskStats` inherit this.
- `ilike` is modelled as an ASCII case-insensitive substring test. The `%` and `_` wildcards inside a search string are not interpreted, and there is no locale-aware case folding.
- String lengths are counted in characters, not UTF-16 code units.
- The services write through knex to SQLite in development and PostgreSQL in production. The moves, rooms, items and boxes tables default their id to a UUID-v4 expression built from SQLite's `randomblob`, `hex` and `random`. The tasks table uses PostgreSQL's `gen_random_uuid()`. `ilike` exists only in PostgreSQL. So no one backend runs all of the code. Each modelled behaviour follows one backend, as listed below. Row ids are parameters with freshness preconditions, whatever the default. Column widths are not enforced by the store. The validation lemmas show that validated input fits them.
- Schema.Valid: the model enforces every foreign key and applies every cascade as the migrations declare them, and neither configured backend does so. The SQLite configuration never turns on `PRAGMA foreign_keys`, so there an insert naming a missing move succeeds and deleting a move or room does not cascade. Under PostgreSQL, the tasks foreign key joins a `uuid` column to the `varchar` `moves.id`, and the items migration references `boxes` before the boxes migration has run, so those two constraints cannot be created.
- Json.Put: JavaScript orders an object's integer-like keys (such as `"1"`) ascending ahead of its other keys. The model keeps every key in insertion order, so `{"b":"x","1":"y"}` parses to the keys `b`, `1` here but `1`, `b` in JavaScript. The two agree on every text `JSON.stringify` writes, which is the only text the services store.
- Query.DatumLeq: NULL sorts as the greatest value, last ascending and first descending, as in PostgreSQL. SQLite sorts NULL as the smallest, so there a listing of items sorted by `category` shows the uncategorised items first.
- Text.StrLeq: text sorts by code point, SQLite's `BINARY` collation. PostgreSQL's collation depends on the database locale.
- Text.ContainsIgnoringCase: the search filter follows PostgreSQL's `ilike`. SQLite has no `ilike`, so a search there makes the query fail.
- ItemService.ReadProps: `properties` is read back as JSON text and parsed, as SQLite returns it. The PostgreSQL driver returns a `json` column already parsed, so there `JSON.parse` would receive an object.
- MoveService.GetMoveById: the locations are returned as records. SQLite returns the stored JSON text, because the service only casts it to `Location`.
- JSON is modelled for objects whose property values are strings, encoded without whitespace. Numbers, nesting and arrays in `properties` are not modelled.
- The `...itemData` and `...boxData` spreads pass any extra request field to the update. Only the fields the validation rules name are modelled.
- RoomService.GetRoomStats: the query groups without `ORDER BY`, so the engine picks the order of the rows. The model returns them in the rooms' table order, one of the orders the engine may give. Only the set of rows and each row's contents are promised by the source.
- TaskBatch.ReorderTasks: `Promise.all` runs the statements concurrently. The model runs them in list order, one of the orders they can take. Its contract promises only what every order gives: a repeated id leaves its task at one of its positions.
- The bulk loop's `catch` counts a throwing statement as failed. Deletes and updates by id do not throw in the model.
- The bulk operation's unused `moveId` argument is not modelled.
- Users, authentication, the controllers and the frontend are not part of this model. The user id is a parameter, and deleting a user is modelled only as the cascade it causes.
- Row ids, QR tokens and the clock are parameters. The id and token come with freshness preconditions.
- Validation.Formats: `isUUID`, `isURL` and `isISO8601` are opaque predicates. The `isUUID` checks on route parameters are not modelled: a malformed id names no row, so the service answers not-found.
- Validation: the type checks on request fields (`isInt`, `isBoolean`, `isNumeric`, `isObject`, `isString` on JavaScript values) are carried by the Dafny types.
- Database failures other than the modelled foreign-key and parse errors (connection loss, constraint races) are not modelled.
- MoveService.UpdateMove: knex refuses an update object without columns. The model returns `EmptyUpdate` for it, before the ownership filter; the source would throw.
- BoxService.MarkBoxAsPacked, BoxService.MarkBoxAsLoaded and BoxService.MarkBoxAsDelivered are the three wrappers around `BoxService.MarkBox`. Their contracts are stated on `MarkBox`.
- Validation.ValidateCreateItem: `photo_url` is checked only by the opaque `isURL`, so its fit in the 500-character column is not stated.
