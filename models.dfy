/** The entity model of the epic/story tracker: statuses, epics, stories and
    the root state with its single id counter (src/models.rs). */
module Models {

  /** Ids and the counter are 32-bit unsigned integers. */
  type u32 = x: int | 0 <= x <= 0xFFFF_FFFF

  const U32_MAX: u32 := 0xFFFF_FFFF

  /** No transition rules: any status may be overwritten with any other. */
  datatype Status = Open | InProgress | Resolved | Closed

  /** An epic lists the ids of its stories in insertion order. It has no id of
      its own: its id is the key it is stored under. */
  datatype Epic = Epic(name: string, description: string, status: Status, stories: seq<u32>)

  datatype Story = Story(name: string, description: string, status: Status)

  /** Epic::new */
  function NewEpic(name: string, description: string): (e: Epic)
    ensures e.name == name && e.description == description
    ensures e.status == Open && e.stories == []
  {
    Epic(name, description, Open, [])
  }

  /** Story::new */
  function NewStory(name: string, description: string): (s: Story)
    ensures s.name == name && s.description == description
    ensures s.status == Open
  {
    Story(name, description, Open)
  }

  /** The value held by a DBState: this is what the storage backend reads and
      writes as one document. */
  datatype DbValue = DbValue(lastItemId: u32, epics: map<u32, Epic>, stories: map<u32, Story>)

  /** The counter bounds every key in use, so the next id is unused. */
  ghost predicate IdsBounded(v: DbValue)
  {
    && (forall id :: id in v.epics ==> id <= v.lastItemId)
    && (forall id :: id in v.stories ==> id <= v.lastItemId)
  }

  /** Allocates the next id from the shared counter and stores `epic` under it. */
  function InsertEpic(v: DbValue, epic: Epic): (w: DbValue)
    requires v.lastItemId < U32_MAX
    ensures w.lastItemId == v.lastItemId + 1
    ensures w.epics.Keys == v.epics.Keys + {w.lastItemId} && w.epics[w.lastItemId] == epic
    ensures forall id :: id in v.epics && id != w.lastItemId ==> w.epics[id] == v.epics[id]
    ensures w.stories == v.stories
    ensures IdsBounded(v) ==> w.lastItemId !in v.epics && w.lastItemId !in v.stories && IdsBounded(w)
  {
    var id := v.lastItemId + 1;
    DbValue(id, v.epics[id := epic], v.stories)
  }

  /** Allocates the next id from the shared counter and stores `story` under it,
      without linking it into any epic. */
  function InsertStory(v: DbValue, story: Story): (w: DbValue)
    requires v.lastItemId < U32_MAX
    ensures w.lastItemId == v.lastItemId + 1
    ensures w.stories.Keys == v.stories.Keys + {w.lastItemId} && w.stories[w.lastItemId] == story
    ensures forall id :: id in v.stories && id != w.lastItemId ==> w.stories[id] == v.stories[id]
    ensures w.epics == v.epics
    ensures IdsBounded(v) ==> w.lastItemId !in v.epics && w.lastItemId !in v.stories && IdsBounded(w)
  {
    var id := v.lastItemId + 1;
    DbValue(id, v.epics, v.stories[id := story])
  }

  /** The root state, updated in place by create_epic and create_story. */
  class DBState {
    var lastItemId: u32
    var epics: map<u32, Epic>
    var stories: map<u32, Story>

    function Value(): DbValue
      reads this
    {
      DbValue(lastItemId, epics, stories)
    }

    /** DBState::new */
    constructor ()
      ensures lastItemId == 0 && epics == map[] && stories == map[]
      ensures IdsBounded(Value())
    {
      lastItemId := 0;
      epics := map[];
      stories := map[];
    }

    /** A state built from a value that was read back from storage. */
    constructor FromValue(v: DbValue)
      ensures Value() == v
    {
      lastItemId := v.lastItemId;
      epics := v.epics;
      stories := v.stories;
    }

    method CreateEpic(name: string, description: string)
      requires lastItemId < U32_MAX
      modifies this
      ensures lastItemId == old(lastItemId) + 1
      ensures epics == old(epics)[lastItemId := NewEpic(name, description)]
      ensures stories == old(stories)
      ensures Value() == InsertEpic(old(Value()), NewEpic(name, description))
      ensures old(IdsBounded(Value())) ==>
                lastItemId !in old(epics) && lastItemId !in old(stories) && IdsBounded(Value())
    {
      lastItemId := lastItemId + 1;
      var newEpic := NewEpic(name, description);
      epics := epics[lastItemId := newEpic];
    }

    method CreateStory(name: string, description: string)
      requires lastItemId < U32_MAX
      modifies this
      ensures lastItemId == old(lastItemId) + 1
      ensures stories == old(stories)[lastItemId := NewStory(name, description)]
      ensures epics == old(epics)
      ensures Value() == InsertStory(old(Value()), NewStory(name, description))
      ensures old(IdsBounded(Value())) ==>
                lastItemId !in old(epics) && lastItemId !in old(stories) && IdsBounded(Value())
    {
      lastItemId := lastItemId + 1;
      var newStory := NewStory(name, description);
      stories := stories[lastItemId := newStory];
    }
  }

  /** One call of DBState::create_epic or DBState::create_story. */
  datatype Creation = EpicCreation(name: string, description: string)
                    | StoryCreation(name: string, description: string)

  function Create(v: DbValue, c: Creation): (w: DbValue)
    requires v.lastItemId < U32_MAX
  {
    match c
    case EpicCreation(name, description) => InsertEpic(v, NewEpic(name, description))
    case StoryCreation(name, description) => InsertStory(v, NewStory(name, description))
  }

  /** The state after the creations `cs`, applied in order. */
  function CreateAll(v: DbValue, cs: seq<Creation>): (w: DbValue)
    requires v.lastItemId + |cs| <= U32_MAX
    decreases |cs|
  {
    if cs == [] then v else CreateAll(Create(v, cs[0]), cs[1..])
  }

  /** A run of creations moves the counter by its length, keeps the ids
      bounded, and leaves every entry that was already under the counter as it
      was. */
  lemma {:induction false} CreateAllKeepsOld(v: DbValue, cs: seq<Creation>)
    requires IdsBounded(v) && v.lastItemId + |cs| <= U32_MAX
    ensures CreateAll(v, cs).lastItemId == v.lastItemId + |cs|
    ensures IdsBounded(CreateAll(v, cs))
    ensures forall id :: id <= v.lastItemId ==>
              (id in CreateAll(v, cs).epics <==> id in v.epics) &&
              (id in CreateAll(v, cs).stories <==> id in v.stories)
    ensures forall id :: id in v.epics ==> CreateAll(v, cs).epics[id] == v.epics[id]
    ensures forall id :: id in v.stories ==> CreateAll(v, cs).stories[id] == v.stories[id]
    decreases |cs|
  {
    if cs != [] {
      var v1 := Create(v, cs[0]);
      CreateAllKeepsOld(v1, cs[1..]);
    }
  }

  /** Running a sequence of creations is running its first j creations, then
      the rest from the state they leave. */
  lemma {:induction false} CreateAllSplit(v: DbValue, cs: seq<Creation>, j: nat)
    requires v.lastItemId + |cs| <= U32_MAX && j <= |cs|
    ensures CreateAll(v, cs[..j]).lastItemId == v.lastItemId + j
    ensures CreateAll(v, cs) == CreateAll(CreateAll(v, cs[..j]), cs[j..])
    decreases j
  {
    if j == 0 {
      assert cs[..0] == [] && cs[0..] == cs;
    } else {
      var v1 := Create(v, cs[0]);
      CreateAllSplit(v1, cs[1..], j - 1);
      assert cs[..j][0] == cs[0] && cs[..j][1..] == cs[1..][..j - 1];
      assert cs[j..] == cs[1..][j - 1..];
    }
  }

  /** The id the j-th creation of a run takes is still unused in the state the
      first j creations leave, from which that creation starts. */
  lemma CreateAllIdUnusedBeforeItsCreation(v: DbValue, cs: seq<Creation>, j: nat)
    requires IdsBounded(v) && v.lastItemId + |cs| <= U32_MAX && j < |cs|
    ensures CreateAll(v, cs[..j]).lastItemId == v.lastItemId + j
    ensures CreateAll(v, cs) == CreateAll(CreateAll(v, cs[..j]), cs[j..])
    ensures v.lastItemId + j + 1 !in CreateAll(v, cs[..j]).epics
    ensures v.lastItemId + j + 1 !in CreateAll(v, cs[..j]).stories
  {
    CreateAllSplit(v, cs, j);
    CreateAllKeepsOld(v, cs[..j]);
  }

  /** Id uniqueness over a run of creations: the j-th creation gets id
      lastItemId + j + 1, which was unused before; epics and stories share the
      counter, so that id ends up in exactly one of the two tables. */
  lemma {:induction false} CreateAllIssuesConsecutiveIds(v: DbValue, cs: seq<Creation>, j: nat)
    requires IdsBounded(v) && v.lastItemId + |cs| <= U32_MAX && j < |cs|
    ensures v.lastItemId + j + 1 !in v.epics && v.lastItemId + j + 1 !in v.stories
    ensures cs[j].EpicCreation? ==>
              && v.lastItemId + j + 1 in CreateAll(v, cs).epics
              && CreateAll(v, cs).epics[v.lastItemId + j + 1] == NewEpic(cs[j].name, cs[j].description)
              && v.lastItemId + j + 1 !in CreateAll(v, cs).stories
    ensures cs[j].StoryCreation? ==>
              && v.lastItemId + j + 1 in CreateAll(v, cs).stories
              && CreateAll(v, cs).stories[v.lastItemId + j + 1] == NewStory(cs[j].name, cs[j].description)
              && v.lastItemId + j + 1 !in CreateAll(v, cs).epics
    decreases |cs|
  {
    var v1 := Create(v, cs[0]);
    if j == 0 {
      CreateAllKeepsOld(v1, cs[1..]);
    } else {
      CreateAllIssuesConsecutiveIds(v1, cs[1..], j - 1);
    }
  }
}
