# Epic/story tracker database layer, in Dafny

This project models the database layer of a small command-line work tracker. The tracker keeps epics, and each epic lists the ids of its stories. The whole state is one document, a `DBState`. It holds an id counter `last_item_id` and two tables keyed by id, one for epics and one for stories.

- `models.dfy` (module `Models`, from `src/models.rs`) holds the entity model.
  - `Status`, `Epic` and `Story` are datatypes. `Epic::new` and `Story::new` are the functions `NewEpic` and `NewStory`.
  - `DbValue` is the value of a `DBState`, the document the storage backend reads and writes.
  - `DBState` is a class with fields `lastItemId`, `epics` and `stories`. Its methods `CreateEpic` and `CreateStory` update those fields in place, as `&mut self` does.
  - `CreateEpic` and `CreateStory` are specified by `InsertEpic` and `InsertStory`. Both allocate from the one shared counter.
  - `CreateAll` applies a run of creations. Its lemmas prove the ids are consecutive, unused before, and never shared between an epic and a story.
- `db.dfy` (module `Db`, from `src/db.rs`) holds the facade, `JiraDatabase`.
  - The storage backend is folded into a constant `backend`. It is the outcome of reading the stored document: `Loaded(state)`, or `ReadFailed(cause)`.
  - Each operation reads, builds a local `DBState` object and changes its fields step by step, as the source does. It then returns `Ok(...)` or an error from `DbError`.
  - The source never calls `write_db` from the facade. So no facade method has a `modifies` clause, and every call sees the same stored state.
  - Each operation also returns a ghost `working` value: the local copy as it stands when the operation returns. The source drops this copy. Its contents are tied to `InsertEpic`, `LinkStory`, `CascadeDelete`, `DetachStory`, `WithEpicStatus` and `WithStoryStatus`.
  - `Position` models `Iterator::position`. `SwapRemove` models `Vec::swap_remove`.
- `db_properties.dfy` (module `DbProperties`) states the integrity invariant `Wellformed`:
  - every key is at most the counter;
  - every listed story id is stored;
  - no story id is listed by two epics;
  - no list repeats an id.

  It proves that the state `DBState::new()` builds is `Wellformed`, and that the state each successful operation leaves behind keeps `Wellformed` (for create_epic, when the epic's list is empty). It also proves two consequences of the missing write-back, as facade-level scenarios.

Ids are 32-bit unsigned (`u32`). The source's `last_item_id += 1` would overflow at `0xFFFF_FFFF`. The model therefore requires `lastItemId < U32_MAX` wherever the counter is raised.

In three places the code does less than a tracker of this kind is expected to; the model follows the code:
- The facade writes nothing back, so a mutation is lost when the call returns. No write error can arise either.
- `create_story` raises the counter before it looks up the epic. On the "epic not found" path the local copy has therefore consumed an id.
- A missing story in `update_story_status` gives `StoryNotFound`. A missing epic gives `EpicNotFound`. These not-found errors and `StoryNotInEpic` are returned unwrapped. Only storage failures are wrapped, as `Failed(op, ReadingFailed(cause))`.

## Model

| member | source | states |
|---|---|---|
| Models.NewEpic | src/models.rs:23-31 | a new epic keeps name and description verbatim, has status Open and an empty story list |
| Models.NewStory | src/models.rs:44-51 | a new story keeps name and description verbatim and has status Open |
| Models.DBState.constructor | src/models.rs:62-68 | a new state has counter 0 and empty epic and story tables, so its ids are bounded |
| Models.InsertEpic | src/models.rs:70-77 | the counter rises by exactly 1 and the epic is stored under the new value. Other epics and all stories are unchanged. If ids were bounded, the new id was in neither table and ids stay bounded |
| Models.InsertStory | src/models.rs:79-86 | the counter rises by exactly 1 and the story is stored under the new value. Epics are unchanged (no link is made). If ids were bounded, the new id was in neither table and ids stay bounded |
| Models.DBState.CreateEpic | src/models.rs:70-77 | updates the fields in place: counter + 1, `Epic::new(name, desc)` inserted under it, stories untouched, bounded ids preserved and the new key previously unused |
| Models.DBState.CreateStory | src/models.rs:79-86 | updates the fields in place: counter + 1, `Story::new(name, desc)` inserted under it, epics untouched, bounded ids preserved and the new key previously unused |
| Models.CreateAllKeepsOld | src/models.rs:70-86 | a run of n creations raises the counter by n, keeps ids bounded, and adds no entry at or below the old counter |
| Models.CreateAllIssuesConsecutiveIds | src/models.rs:70-86 | the j-th creation of a run gets id counter + j + 1. That id was unused, and it ends up in exactly one table: the epic table for an epic, the story table for a story |
| Models.CreateAllSplit | src/models.rs:70-86 | running a run of creations equals running its first j creations and then the rest from the state they leave, whose counter is the old one plus j |
| Models.CreateAllIdUnusedBeforeItsCreation | src/models.rs:70-86 | the id the j-th creation takes is absent from both tables of the state the first j creations leave, the state that creation starts from |
| Db.JiraDatabase.ReadDb | src/db.rs:19-23 | succeeds with the stored state exactly when the backend read succeeds; otherwise wraps the storage failure |
| Db.JiraDatabase.CreateEpic | src/db.rs:25-37 | a read failure gives a wrapped error and no working copy. Otherwise it returns counter + 1, and the working copy stores the given epic under that id with everything else unchanged |
| Db.JiraDatabase.CreateStory | src/db.rs:39-57 | a read failure gives a wrapped error. A missing epic gives EpicNotFound, with a working copy whose counter was already raised. Otherwise it returns counter + 1, with the story stored and its id appended to the epic |
| Db.JiraDatabase.DeleteEpic | src/db.rs:59-78 | a read failure gives a wrapped error. A missing epic gives EpicNotFound with nothing changed. Otherwise the working copy is the cascade delete, built by a loop that removes the listed stories one at a time |
| Db.JiraDatabase.DeleteStory | src/db.rs:80-108 | a read failure gives a wrapped error. A missing epic gives EpicNotFound and an unlisted story gives StoryNotInEpic, both with nothing changed. Otherwise the working copy is the swap_remove detach |
| Db.JiraDatabase.UpdateEpicStatus | src/db.rs:110-127 | a read failure gives a wrapped error. A missing epic gives EpicNotFound with nothing changed. Otherwise only that epic's status is overwritten |
| Db.JiraDatabase.UpdateStoryStatus | src/db.rs:129-146 | a read failure gives a wrapped error. A missing story gives StoryNotFound with nothing changed. Otherwise only that story's status is overwritten |
| Db.FirstIndex | src/db.rs:89-90 | the index holds the searched id and no earlier index does |
| Db.Position | src/db.rs:89-90 | the search finds the first occurrence when the id is listed and nothing otherwise |
| Db.SwapRemove | src/db.rs:92 | the list shrinks by one, the last element moves into slot i, and every other slot keeps its element |
| Db.SwapRemoveMultiset | src/db.rs:92 | swap_remove removes exactly one copy of the element at i from the list's multiset |
| Db.WithoutStories | src/db.rs:67-69 | a story survives exactly when it is not in the removed list, with its value unchanged |
| Db.LinkStory | src/db.rs:44-50 | the counter rises by 1 and the story is stored under the new id. The id is appended to the end of that epic's list. That epic's name, description and status stay, and so do all other epics and stories. Bounded ids are preserved and the id is new |
| Db.CascadeDelete | src/db.rs:66-71 | the epic key is gone, every story it listed is gone, stories it did not list and all other epics are untouched, and the counter is unchanged |
| Db.DetachStory | src/db.rs:89-93 | the first occurrence of the story id is swap-removed and the list's multiset loses exactly one copy. The story is dropped from the table. Everything else is unchanged |
| Db.WithEpicStatus | src/db.rs:115-121 | only the target epic's status changes. Its name, description and story list stay, and so do all other entities |
| Db.WithStoryStatus | src/db.rs:134-140 | only the target story's status changes. Its name and description stay, and so do all other entities |
| DbProperties.EmptyWellformed | src/models.rs:62-68 | the state `DBState::new()` builds (counter 0, no epics, no stories) satisfies the integrity invariant |
| DbProperties.InsertEpicKeepsWellformed | src/db.rs:30-33 | inserting an epic with an empty list, as `Epic::new` makes, keeps the integrity invariant |
| DbProperties.LinkStoryKeepsWellformed | src/db.rs:44-50 | creating a story in an existing epic keeps the integrity invariant. In particular the new id was listed nowhere before |
| DbProperties.CascadeDeleteKeepsWellformed | src/db.rs:66-71 | deleting an epic with its stories keeps the integrity invariant, because no other epic listed those stories |
| DbProperties.DetachStoryKeepsWellformed | src/db.rs:89-93 | deleting a story from its epic keeps the integrity invariant, because swap_remove takes out the only copy |
| DbProperties.WithEpicStatusKeepsWellformed | src/db.rs:115-121 | an epic status update keeps the integrity invariant |
| DbProperties.WithStoryStatusKeepsWellformed | src/db.rs:134-140 | a story status update keeps the integrity invariant |
| DbProperties.DetachStoryNeedsNoRepeats | src/db.rs:89-93 | if an epic lists a story twice, deleting that story leaves one copy of its id listed while the story is gone |
| DbProperties.CascadeDeleteNeedsSingleOwner | src/db.rs:66-71 | if two epics list the same story, deleting one epic drops that story while the other epic still lists it |
| DbProperties.CreateLinkDeleteScenario | src/db.rs:25-78 | chaining the working copies of create epic, create story and delete epic from an empty state: ids 1 and 2, list `[2]`, then a counter of 2 with both tables empty |
| DbProperties.CreateEpicThenStory | src/db.rs:25-57 | on an empty stored state, create_epic returns 1 but a following create_story in epic 1 fails with EpicNotFound, because nothing was written back |
| DbProperties.CreateEpicTwice | src/db.rs:25-37 | two create_epic calls on the same stored state return the same id |

## Left out

- Storage backend I/O (`JSONFileDatabase::read_db` and `write_db`, src/db.rs:158-169) is left out. So are the JSON document format and its serde (de)serialization. A read is the abstract outcome `ReadOutcome`; its cause is only "unreadable" or "malformed". The JSON round trip is therefore not modelled.
- The `Database` trait object, `Box<dyn Database>`, and `JiraDatabase::new` with its file path are folded into the constant `backend` of `JiraDatabase`.
- The commented-out mock backend is dead code and is not modelled.
- Error message texts are left out. The chain of `anyhow!` wrappers is kept as the `Failed(op, inner)` nesting only.
- `HashMap` hashing and iteration order are left out. The tables are Dafny maps. The delete_epic loop visits the epic's list in order, and its result does not depend on order.
- Concurrent access by several processes is left out (last writer wins), and so is crash safety of the file write.
- Models.DBState.CreateEpic: counter overflow is a precondition (`lastItemId < U32_MAX`). The debug-build panic and the release-build wrap-around on `u32` overflow are not modelled.
- Models.DBState.CreateStory: counter overflow is a precondition, as for CreateEpic.
- Db.JiraDatabase.CreateEpic: counter overflow is a precondition on the stored state, as for DBState.CreateEpic.
- Db.JiraDatabase.CreateStory: counter overflow is a precondition on the stored state. It applies on the "epic not found" path too, because the counter is raised before the lookup.
- DbProperties.InsertEpicKeepsWellformed: covers only an epic whose story list is empty. The facade's create_epic accepts any epic value and does not check the ids it lists.
