/** The database facade (JiraDatabase in src/db.rs). Every operation reads the
    whole state from the storage backend, mutates a local copy of it, and
    returns an id or an error. No operation writes the copy back, so the
    backend's content is an input here and nothing below may change it. */
module Db {
  import opened Models

  datatype Option<T> = None | Some(value: T)

  /** Why the storage backend could not produce a state: the file could not be
      read, or its content is not a DBState document. */
  datatype StorageError = Unreadable | Malformed

  /** The outcome of the backend's read_db. */
  datatype ReadOutcome = Loaded(state: DbValue) | ReadFailed(cause: StorageError)

  /** The logical operation named when a storage failure is reported. */
  datatype Operation =
    | EpicInsertion
    | StoryInsertion
    | EpicDeletion
    | StoryDeletion
    | EpicStatusUpdate
    | StoryStatusUpdate

  datatype DbError =
    | ReadingFailed(cause: StorageError)
    | Failed(op: Operation, inner: DbError)
    | EpicNotFound(epicId: u32)
    | StoryNotFound(storyId: u32)
    | StoryNotInEpic(epicId: u32, storyId: u32)

  datatype Result<T> = Ok(value: T) | Err(error: DbError)

  // ---------------------------------------------------------------------
  // Vec operations the facade uses on an epic's story list

  /** The index of the first occurrence of `x`: what `position` finds. */
  function FirstIndex(s: seq<u32>, x: u32): (i: nat)
    requires x in s
    ensures i < |s| && s[i] == x
    ensures forall j :: 0 <= j < i ==> s[j] != x
  {
    if s[0] == x then 0 else 1 + FirstIndex(s[1..], x)
  }

  /** Vec::swap_remove: the element at `i` is replaced by the last one and the
      list shrinks by one. */
  function SwapRemove(s: seq<u32>, i: nat): (r: seq<u32>)
    requires i < |s|
    ensures |r| == |s| - 1
    ensures forall j :: 0 <= j < |r| && j != i ==> r[j] == s[j]
    ensures i < |r| ==> r[i] == s[|s| - 1]
  {
    s[i := s[|s| - 1]][..|s| - 1]
  }

  /** swap_remove takes exactly one copy of the removed element out of the list. */
  lemma SwapRemoveMultiset(s: seq<u32>, i: nat)
    requires i < |s|
    ensures multiset(SwapRemove(s, i)) == multiset(s) - multiset{s[i]}
  {
    var last := |s| - 1;
    if i == last {
      assert s == SwapRemove(s, i) + [s[i]];
    } else {
      assert s == s[..i] + [s[i]] + s[i + 1..last] + [s[last]];
      assert SwapRemove(s, i) == s[..i] + [s[last]] + s[i + 1..last];
    }
  }

  /** Iterator::position over the story list. */
  method Position(s: seq<u32>, x: u32) returns (p: Option<nat>)
    ensures p == if x in s then Some(FirstIndex(s, x)) else None
  {
    var i := 0;
    while i < |s|
      invariant 0 <= i <= |s|
      invariant forall j :: 0 <= j < i ==> s[j] != x
    {
      if s[i] == x {
        return Some(i);
      }
      i := i + 1;
    }
    p := None;
  }

  // ---------------------------------------------------------------------
  // The local copy each successful operation leaves behind

  /** The stories left after removing every id in `ids` from `m`. */
  function WithoutStories(m: map<u32, Story>, ids: seq<u32>): (r: map<u32, Story>)
    ensures forall id :: id in r <==> id in m && id !in ids
    ensures forall id :: id in r ==> r[id] == m[id]
  {
    map id | id in m && id !in ids :: m[id]
  }

  /** create_story: allocate the next id, store the story under it and append
      the id to the story list of epic `epicId`. */
  function LinkStory(v: DbValue, story: Story, epicId: u32): (w: DbValue)
    requires v.lastItemId < U32_MAX && epicId in v.epics
    ensures w.lastItemId == v.lastItemId + 1
    ensures w.stories.Keys == v.stories.Keys + {w.lastItemId} && w.stories[w.lastItemId] == story
    ensures forall id :: id in v.stories && id != w.lastItemId ==> w.stories[id] == v.stories[id]
    ensures w.epics.Keys == v.epics.Keys
    ensures w.epics[epicId].stories == v.epics[epicId].stories + [w.lastItemId]
    ensures w.epics[epicId] == v.epics[epicId].(stories := w.epics[epicId].stories)
    ensures forall id :: id in v.epics && id != epicId ==> w.epics[id] == v.epics[id]
    ensures IdsBounded(v) ==> w.lastItemId !in v.stories && w.lastItemId !in v.epics && IdsBounded(w)
  {
    var inserted := InsertStory(v, story);
    var epic := v.epics[epicId];
    inserted.(epics := v.epics[epicId := epic.(stories := epic.stories + [inserted.lastItemId])])
  }

  /** delete_epic: drop every story the epic lists, then the epic itself. */
  function CascadeDelete(v: DbValue, epicId: u32): (w: DbValue)
    requires epicId in v.epics
    ensures w.lastItemId == v.lastItemId
    ensures w.epics.Keys == v.epics.Keys - {epicId}
    ensures forall id :: id in w.epics ==> w.epics[id] == v.epics[id]
    ensures forall id :: id in v.epics[epicId].stories ==> id !in w.stories
    ensures forall id :: id in v.stories && id !in v.epics[epicId].stories ==>
              id in w.stories && w.stories[id] == v.stories[id]
    ensures w.stories.Keys <= v.stories.Keys
  {
    DbValue(v.lastItemId, v.epics - {epicId}, WithoutStories(v.stories, v.epics[epicId].stories))
  }

  /** delete_story: swap_remove the first occurrence of the story id from the
      epic's list and drop the story. */
  function DetachStory(v: DbValue, epicId: u32, storyId: u32): (w: DbValue)
    requires epicId in v.epics && storyId in v.epics[epicId].stories
    ensures w.lastItemId == v.lastItemId
    ensures w.epics.Keys == v.epics.Keys
    ensures var before := v.epics[epicId].stories;
            var i := FirstIndex(before, storyId);
            w.epics[epicId].stories == SwapRemove(before, i)
    ensures multiset(w.epics[epicId].stories)
            == multiset(v.epics[epicId].stories) - multiset{storyId}
    ensures w.epics[epicId] == v.epics[epicId].(stories := w.epics[epicId].stories)
    ensures forall id :: id in v.epics && id != epicId ==> w.epics[id] == v.epics[id]
    ensures w.stories.Keys == v.stories.Keys - {storyId}
    ensures forall id :: id in w.stories ==> w.stories[id] == v.stories[id]
  {
    var epic := v.epics[epicId];
    var i := FirstIndex(epic.stories, storyId);
    SwapRemoveMultiset(epic.stories, i);
    DbValue(v.lastItemId, v.epics[epicId := epic.(stories := SwapRemove(epic.stories, i))],
            v.stories - {storyId})
  }

  /** update_epic_status: only the status of epic `epicId` changes. */
  function WithEpicStatus(v: DbValue, epicId: u32, status: Status): (w: DbValue)
    requires epicId in v.epics
    ensures w.epics.Keys == v.epics.Keys
    ensures w.epics[epicId].status == status
    ensures w.epics[epicId].name == v.epics[epicId].name
    ensures w.epics[epicId].description == v.epics[epicId].description
    ensures w.epics[epicId].stories == v.epics[epicId].stories
    ensures forall id :: id in v.epics && id != epicId ==> w.epics[id] == v.epics[id]
    ensures w.stories == v.stories && w.lastItemId == v.lastItemId
  {
    v.(epics := v.epics[epicId := v.epics[epicId].(status := status)])
  }

  /** update_story_status: only the status of story `storyId` changes. */
  function WithStoryStatus(v: DbValue, storyId: u32, status: Status): (w: DbValue)
    requires storyId in v.stories
    ensures w.stories.Keys == v.stories.Keys
    ensures w.stories[storyId].status == status
    ensures w.stories[storyId].name == v.stories[storyId].name
    ensures w.stories[storyId].description == v.stories[storyId].description
    ensures forall id :: id in v.stories && id != storyId ==> w.stories[id] == v.stories[id]
    ensures w.epics == v.epics && w.lastItemId == v.lastItemId
  {
    v.(stories := v.stories[storyId := v.stories[storyId].(status := status)])
  }

  // ---------------------------------------------------------------------
  // The facade

  /** The storage backend is folded into `backend`, the outcome every read_db
      call yields. No method has a modifies clause: the facade never writes,
      so each call sees the same stored state. The ghost out-parameter
      `working` is the local copy as the operation leaves it when it returns
      (None when the read failed); the source drops it. */
  class JiraDatabase {
    const backend: ReadOutcome

    constructor (backend: ReadOutcome)
      ensures this.backend == backend
    {
      this.backend := backend;
    }

    /** Reads the stored state, wrapping a backend failure. */
    method ReadDb() returns (r: Result<DbValue>)
      ensures r.Ok? <==> backend.Loaded?
      ensures backend.Loaded? ==> r.value == backend.state
      ensures backend.ReadFailed? ==> r.error == ReadingFailed(backend.cause)
    {
      match backend
      case Loaded(state) => r := Ok(state);
      case ReadFailed(cause) => r := Err(ReadingFailed(cause));
    }

    method CreateEpic(epic: Epic) returns (r: Result<u32>, ghost working: Option<DbValue>)
      requires backend.Loaded? ==> backend.state.lastItemId < U32_MAX
      ensures backend.ReadFailed? ==> r == Err(Failed(EpicInsertion, ReadingFailed(backend.cause)))
      ensures backend.Loaded? ==> r == Ok(backend.state.lastItemId + 1)
      ensures working == if backend.Loaded? then Some(InsertEpic(backend.state, epic)) else None
    {
      var read := ReadDb();
      if read.Err? {
        var e := read.error;
        r, working := Err(Failed(EpicInsertion, e)), None;
      } else {
        var state := read.value;
        var db := new DBState.FromValue(state);
        db.lastItemId := db.lastItemId + 1;
        db.epics := db.epics[db.lastItemId := epic];
        r, working := Ok(db.lastItemId), Some(db.Value());
      }
    }

    /** The counter is raised before the epic is looked up, so on the
        not-found path the local copy has consumed an id. */
    method CreateStory(story: Story, epicId: u32) returns (r: Result<u32>, ghost working: Option<DbValue>)
      requires backend.Loaded? ==> backend.state.lastItemId < U32_MAX
      ensures backend.ReadFailed? ==> r == Err(Failed(StoryInsertion, ReadingFailed(backend.cause)))
      ensures backend.Loaded? && epicId !in backend.state.epics ==> r == Err(EpicNotFound(epicId))
      ensures backend.Loaded? && epicId in backend.state.epics ==> r == Ok(backend.state.lastItemId + 1)
      ensures backend.ReadFailed? ==> working == None
      ensures backend.Loaded? && epicId !in backend.state.epics ==>
                working == Some(backend.state.(lastItemId := backend.state.lastItemId + 1))
      ensures backend.Loaded? && epicId in backend.state.epics ==>
                working == Some(LinkStory(backend.state, story, epicId))
    {
      var read := ReadDb();
      if read.Err? {
        var e := read.error;
        r, working := Err(Failed(StoryInsertion, e)), None;
      } else {
        var state := read.value;
        var db := new DBState.FromValue(state);
        db.lastItemId := db.lastItemId + 1;
        if epicId in db.epics {
          var epic := db.epics[epicId];
          db.epics := db.epics[epicId := epic.(stories := epic.stories + [db.lastItemId])];
          db.stories := db.stories[db.lastItemId := story];
          r := Ok(db.lastItemId);
        } else {
          r := Err(EpicNotFound(epicId));
        }
        working := Some(db.Value());
      }
    }

    method DeleteEpic(epicId: u32) returns (r: Result<()>, ghost working: Option<DbValue>)
      ensures backend.ReadFailed? ==> r == Err(Failed(EpicDeletion, ReadingFailed(backend.cause)))
      ensures backend.Loaded? ==> r == if epicId in backend.state.epics then Ok(()) else Err(EpicNotFound(epicId))
      ensures backend.ReadFailed? ==> working == None
      ensures backend.Loaded? && epicId !in backend.state.epics ==> working == Some(backend.state)
      ensures backend.Loaded? && epicId in backend.state.epics ==>
                working == Some(CascadeDelete(backend.state, epicId))
    {
      var read := ReadDb();
      if read.Err? {
        var e := read.error;
        r, working := Err(Failed(EpicDeletion, e)), None;
      } else {
        var state := read.value;
        var db := new DBState.FromValue(state);
        if epicId in db.epics {
          var listed := db.epics[epicId].stories;
          for i := 0 to |listed|
            invariant db.lastItemId == state.lastItemId && db.epics == state.epics
            invariant db.stories == WithoutStories(state.stories, listed[..i])
          {
            assert listed[..i + 1] == listed[..i] + [listed[i]];
            db.stories := db.stories - {listed[i]};
          }
          assert listed[..|listed|] == listed;
          db.epics := db.epics - {epicId};
          r := Ok(());
        } else {
          r := Err(EpicNotFound(epicId));
        }
        working := Some(db.Value());
      }
    }

    method DeleteStory(epicId: u32, storyId: u32) returns (r: Result<()>, ghost working: Option<DbValue>)
      ensures backend.ReadFailed? ==> r == Err(Failed(StoryDeletion, ReadingFailed(backend.cause)))
      ensures backend.Loaded? && epicId !in backend.state.epics ==> r == Err(EpicNotFound(epicId))
      ensures backend.Loaded? && epicId in backend.state.epics ==>
                r == if storyId in backend.state.epics[epicId].stories then Ok(())
                     else Err(StoryNotInEpic(epicId, storyId))
      ensures backend.ReadFailed? ==> working == None
      ensures backend.Loaded? && (epicId !in backend.state.epics
                                  || storyId !in backend.state.epics[epicId].stories) ==>
                working == Some(backend.state)
      ensures backend.Loaded? && epicId in backend.state.epics
              && storyId in backend.state.epics[epicId].stories ==>
                working == Some(DetachStory(backend.state, epicId, storyId))
    {
      var read := ReadDb();
      if read.Err? {
        var e := read.error;
        r, working := Err(Failed(StoryDeletion, e)), None;
      } else {
        var state := read.value;
        var db := new DBState.FromValue(state);
        if epicId in db.epics {
          var epic := db.epics[epicId];
          var target := Position(epic.stories, storyId);
          match target
          case Some(i) =>
            db.epics := db.epics[epicId := epic.(stories := SwapRemove(epic.stories, i))];
            db.stories := db.stories - {storyId};
            r := Ok(());
          case None =>
            r := Err(StoryNotInEpic(epicId, storyId));
        } else {
          r := Err(EpicNotFound(epicId));
        }
        working := Some(db.Value());
      }
    }

    method UpdateEpicStatus(epicId: u32, status: Status) returns (r: Result<()>, ghost working: Option<DbValue>)
      ensures backend.ReadFailed? ==> r == Err(Failed(EpicStatusUpdate, ReadingFailed(backend.cause)))
      ensures backend.Loaded? ==> r == if epicId in backend.state.epics then Ok(()) else Err(EpicNotFound(epicId))
      ensures backend.ReadFailed? ==> working == None
      ensures backend.Loaded? && epicId !in backend.state.epics ==> working == Some(backend.state)
      ensures backend.Loaded? && epicId in backend.state.epics ==>
                working == Some(WithEpicStatus(backend.state, epicId, status))
    {
      var read := ReadDb();
      if read.Err? {
        var e := read.error;
        r, working := Err(Failed(EpicStatusUpdate, e)), None;
      } else {
        var state := read.value;
        var db := new DBState.FromValue(state);
        if epicId in db.epics {
          db.epics := db.epics[epicId := db.epics[epicId].(status := status)];
          r := Ok(());
        } else {
          r := Err(EpicNotFound(epicId));
        }
        working := Some(db.Value());
      }
    }

    method UpdateStoryStatus(storyId: u32, status: Status) returns (r: Result<()>, ghost working: Option<DbValue>)
      ensures backend.ReadFailed? ==> r == Err(Failed(StoryStatusUpdate, ReadingFailed(backend.cause)))
      ensures backend.Loaded? ==> r == if storyId in backend.state.stories then Ok(()) else Err(StoryNotFound(storyId))
      ensures backend.ReadFailed? ==> working == None
      ensures backend.Loaded? && storyId !in backend.state.stories ==> working == Some(backend.state)
      ensures backend.Loaded? && storyId in backend.state.stories ==>
                working == Some(WithStoryStatus(backend.state, storyId, status))
    {
      var read := ReadDb();
      if read.Err? {
        var e := read.error;
        r, working := Err(Failed(StoryStatusUpdate, e)), None;
      } else {
        var state := read.value;
        var db := new DBState.FromValue(state);
        if storyId in db.stories {
          db.stories := db.stories[storyId := db.stories[storyId].(status := status)];
          r := Ok(());
        } else {
          r := Err(StoryNotFound(storyId));
        }
        working := Some(db.Value());
      }
    }
  }
}
