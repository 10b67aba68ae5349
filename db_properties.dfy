/** Properties of the facade's operations: the invariant the facade is meant
    to keep (ids under the counter, every listed story stored, each story in
    one epic at most once), and what the code as written does across calls. */
module DbProperties {
  import opened Models
  import opened Db

  predicate Distinct(s: seq<u32>)
  {
    forall j, k :: 0 <= j < k < |s| ==> s[j] != s[k]
  }

  /** Referential integrity: every id an epic lists names a stored story. */
  ghost predicate StoriesLinked(v: DbValue)
  {
    forall e, id :: e in v.epics && id in v.epics[e].stories ==> id in v.stories
  }

  /** A story id is listed by one epic at most. */
  ghost predicate SingleOwner(v: DbValue)
  {
    forall e1, e2, id ::
      e1 in v.epics && e2 in v.epics && id in v.epics[e1].stories && id in v.epics[e2].stories
      ==> e1 == e2
  }

  /** No epic lists a story id twice. */
  ghost predicate NoRepeats(v: DbValue)
  {
    forall e :: e in v.epics ==> Distinct(v.epics[e].stories)
  }

  ghost predicate Wellformed(v: DbValue)
  {
    IdsBounded(v) && StoriesLinked(v) && SingleOwner(v) && NoRepeats(v)
  }

  /** The state DBState::new builds satisfies the invariant. */
  lemma EmptyWellformed()
    ensures Wellformed(DbValue(0, map[], map[]))
  {
  }

  /** create_epic keeps the invariant when the new epic lists no stories, as
      Epic::new makes it. */
  lemma InsertEpicKeepsWellformed(v: DbValue, epic: Epic)
    requires Wellformed(v) && v.lastItemId < U32_MAX && epic.stories == []
    ensures Wellformed(InsertEpic(v, epic))
  {
  }

  /** The id create_story allocates is listed nowhere yet, so appending it
      keeps every list free of repeats and owned once. */
  lemma LinkStoryKeepsWellformed(v: DbValue, story: Story, epicId: u32)
    requires Wellformed(v) && v.lastItemId < U32_MAX && epicId in v.epics
    ensures Wellformed(LinkStory(v, story, epicId))
  {
  }

  /** delete_epic keeps referential integrity because a story it removes is
      listed by no other epic. */
  lemma CascadeDeleteKeepsWellformed(v: DbValue, epicId: u32)
    requires Wellformed(v) && epicId in v.epics
    ensures Wellformed(CascadeDelete(v, epicId))
  {
  }

  /** delete_story keeps referential integrity because the list held the story
      id once, and swap_remove takes exactly that copy out. */
  lemma DetachStoryKeepsWellformed(v: DbValue, epicId: u32, storyId: u32)
    requires Wellformed(v) && epicId in v.epics && storyId in v.epics[epicId].stories
    ensures Wellformed(DetachStory(v, epicId, storyId))
  {
  }

  /** Status updates touch no id and no list. */
  lemma WithEpicStatusKeepsWellformed(v: DbValue, epicId: u32, status: Status)
    requires Wellformed(v) && epicId in v.epics
    ensures Wellformed(WithEpicStatus(v, epicId, status))
  {
  }

  lemma WithStoryStatusKeepsWellformed(v: DbValue, storyId: u32, status: Status)
    requires Wellformed(v) && storyId in v.stories
    ensures Wellformed(WithStoryStatus(v, storyId, status))
  {
  }

  /** Without NoRepeats, delete_story can leave a dangling id: swap_remove
      takes out one copy while the story itself is dropped. */
  lemma DetachStoryNeedsNoRepeats()
    ensures var v := DbValue(2, map[1 := Epic("e", "", Open, [2, 2])], map[2 := Story("s", "", Open)]);
            && IdsBounded(v) && StoriesLinked(v) && SingleOwner(v) && !NoRepeats(v)
            && !StoriesLinked(DetachStory(v, 1, 2))
  {
    var v := DbValue(2, map[1 := Epic("e", "", Open, [2, 2])], map[2 := Story("s", "", Open)]);
    var w := DetachStory(v, 1, 2);
    assert FirstIndex([2, 2], 2) == 0;
    assert w.epics[1].stories == [2];
    assert 2 in w.epics[1].stories && 2 !in w.stories;
    assert v.epics[1].stories[0] == v.epics[1].stories[1];
  }

  /** Without SingleOwner, delete_epic can leave a dangling id: it drops a
      story that another epic still lists. */
  lemma CascadeDeleteNeedsSingleOwner()
    ensures var v := DbValue(3, map[1 := Epic("a", "", Open, [3]), 2 := Epic("b", "", Open, [3])],
                                map[3 := Story("s", "", Open)]);
            && IdsBounded(v) && StoriesLinked(v) && NoRepeats(v) && !SingleOwner(v)
            && !StoriesLinked(CascadeDelete(v, 1))
  {
    var v := DbValue(3, map[1 := Epic("a", "", Open, [3]), 2 := Epic("b", "", Open, [3])],
                        map[3 := Story("s", "", Open)]);
    var w := CascadeDelete(v, 1);
    assert 3 in v.epics[1].stories && 3 in v.epics[2].stories;
    assert 3 in w.epics[2].stories && 3 !in w.stories;
  }

  /** The sequence of working states for the scenario: create an epic, a
      story in it, then delete the epic. Each step starts from the state the
      previous step left in memory. */
  lemma CreateLinkDeleteScenario(e: Epic, s: Story)
    requires e.stories == []
    ensures var v0 := DbValue(0, map[], map[]);
            var v1 := InsertEpic(v0, e);
            var v2 := LinkStory(v1, s, 1);
            var v3 := CascadeDelete(v2, 1);
            && v1.lastItemId == 1 && v1.epics == map[1 := e] && v1.stories == map[]
            && v2.lastItemId == 2 && v2.epics[1].stories == [2] && v2.stories == map[2 := s]
            && v3 == DbValue(2, map[], map[])
  {
  }

  /** Because the facade never writes back, creating an epic and then a story
      in it through two facade calls fails: the second call reads the same
      empty state as the first. */
  method CreateEpicThenStory(db: JiraDatabase, e: Epic, s: Story)
    returns (first: Result<u32>, second: Result<u32>)
    requires db.backend == Loaded(DbValue(0, map[], map[]))
    ensures first == Ok(1)
    ensures second == Err(EpicNotFound(1))
  {
    ghost var copy;
    first, copy := db.CreateEpic(e);
    second, copy := db.CreateStory(s, 1);
  }

  /** Two create_epic calls on the same facade return the same id. */
  method CreateEpicTwice(db: JiraDatabase, e1: Epic, e2: Epic)
    returns (first: Result<u32>, second: Result<u32>)
    requires db.backend.Loaded? && db.backend.state.lastItemId < U32_MAX
    ensures first.Ok? && first == second
  {
    ghost var copy;
    first, copy := db.CreateEpic(e1);
    second, copy := db.CreateEpic(e2);
  }
}
