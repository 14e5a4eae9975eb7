/**
 * The lesson path of the dashboard page: which topics of a learning track are
 * completed, which are unlocked, where each node sits on the path and which
 * nodes link to their lesson. Topics and progress records arrive as inputs;
 * fetching them and rendering the page are not modelled.
 */
module Dashboard {
  import opened Wrappers
  import JsStrings

  type TopicId = int

  /** A topic of a track (`DBTopic`): its id, title (`judul_topik`), icon and XP reward. */
  datatype Topic = Topic(id: TopicId, title: string, icon: string, xpReward: int)

  /** A progress record (`DBUserProgress`); the page reads only its `topik_id`. */
  datatype ProgressRecord = ProgressRecord(topicId: TopicId)

  /** The props the page hands to one `LessonNode`. */
  datatype LessonState = LessonState(lesson: Topic, isCompleted: bool, isUnlocked: bool, index: nat)

  /** Some progress record names topic `id`. */
  predicate HasCompleted(progress: seq<ProgressRecord>, id: TopicId) {
    exists k :: 0 <= k < |progress| && progress[k].topicId == id
  }

  /** `progress.map(p => p.topik_id)`. */
  function CompletedLessonIds(progress: seq<ProgressRecord>): (ids: seq<TopicId>)
    ensures |ids| == |progress|
    ensures forall k :: 0 <= k < |progress| ==> ids[k] == progress[k].topicId
  {
    if progress == [] then [] else [progress[0].topicId] + CompletedLessonIds(progress[1..])
  }

  /** An id is in the completed list exactly when some progress record names it. */
  lemma CompletedIdsMembership(progress: seq<ProgressRecord>, id: TopicId)
    ensures id in CompletedLessonIds(progress) <==> HasCompleted(progress, id)
  {
    var ids := CompletedLessonIds(progress);
    if id in ids {
      var k :| 0 <= k < |ids| && ids[k] == id;
      assert progress[k].topicId == id;
    }
  }

  /** The projection of concatenated progress is the concatenation of the projections. */
  lemma CompletedIdsAppend(p: seq<ProgressRecord>, q: seq<ProgressRecord>)
    ensures CompletedLessonIds(p + q) == CompletedLessonIds(p) + CompletedLessonIds(q)
  {
  }

  /** The node handed out for position `index` of `topics.map((lesson, index) => ...)`. */
  function StateAt(topics: seq<Topic>, completed: seq<TopicId>, index: nat): LessonState
    requires index < |topics|
  {
    LessonState(
      topics[index],
      topics[index].id in completed,
      index == 0 || topics[index - 1].id in completed,
      index)
  }

  /** The nodes for positions `start` onwards: the left-to-right walk over `topics`. */
  function StatesFrom(topics: seq<Topic>, completed: seq<TopicId>, start: nat): (r: seq<LessonState>)
    requires start <= |topics|
    ensures |r| == |topics| - start
    ensures forall k :: 0 <= k < |r| ==> r[k] == StateAt(topics, completed, start + k)
    decreases |topics| - start
  {
    if start == |topics| then []
    else [StateAt(topics, completed, start)] + StatesFrom(topics, completed, start + 1)
  }

  /**
   * The gating map for a completed-id list: one node per topic, in order; a
   * topic is completed when its id is listed, and unlocked when it is the
   * first topic or its predecessor is completed.
   */
  function Gate(topics: seq<Topic>, completed: seq<TopicId>): (r: seq<LessonState>)
    ensures |r| == |topics|
    ensures forall i :: 0 <= i < |topics| ==> r[i].lesson == topics[i] && r[i].index == i
    ensures forall i :: 0 <= i < |topics| ==> (r[i].isCompleted <==> topics[i].id in completed)
    ensures |topics| > 0 ==> r[0].isUnlocked
    ensures forall i :: 0 < i < |topics| ==> r[i].isUnlocked == r[i - 1].isCompleted
  {
    StatesFrom(topics, completed, 0)
  }

  /** What the page computes from the fetched topics and progress records. */
  function TopicStates(topics: seq<Topic>, progress: seq<ProgressRecord>): seq<LessonState>
  {
    Gate(topics, CompletedLessonIds(progress))
  }

  /** The gating map in terms of the progress records themselves. */
  lemma TopicStatesMeaning(topics: seq<Topic>, progress: seq<ProgressRecord>)
    ensures var r := TopicStates(topics, progress);
      && |r| == |topics|
      && (forall i :: 0 <= i < |topics| ==> r[i].lesson == topics[i] && r[i].index == i)
      && (forall i :: 0 <= i < |topics| ==> (r[i].isCompleted <==> HasCompleted(progress, topics[i].id)))
      && (forall i :: 0 <= i < |topics| ==>
            (r[i].isUnlocked <==> i == 0 || HasCompleted(progress, topics[i - 1].id)))
  {
    forall id: TopicId { CompletedIdsMembership(progress, id); }
  }

  /** The first topic is unlocked whatever the progress. */
  lemma FirstTopicUnlocked(topics: seq<Topic>, progress: seq<ProgressRecord>)
    requires |topics| > 0
    ensures TopicStates(topics, progress)[0].isUnlocked
  {
  }

  /** The gating map depends only on which topic ids are listed, not on order or repetition. */
  lemma GateDependsOnMembership(topics: seq<Topic>, a: seq<TopicId>, b: seq<TopicId>)
    requires forall t :: t in topics ==> (t.id in a <==> t.id in b)
    ensures Gate(topics, a) == Gate(topics, b)
  {
    var ra, rb := Gate(topics, a), Gate(topics, b);
    forall i | 0 <= i < |topics| ensures ra[i] == rb[i] {
      assert topics[i] in topics;
      if i > 0 {
        assert topics[i - 1] in topics;
      }
    }
  }

  /** Progress records naming no topic of the track change nothing. */
  lemma ForeignProgressIgnored(topics: seq<Topic>, progress: seq<ProgressRecord>, extra: seq<ProgressRecord>)
    requires forall r, t :: r in extra && t in topics ==> r.topicId != t.id
    ensures TopicStates(topics, progress + extra) == TopicStates(topics, progress)
  {
    var a, b := CompletedLessonIds(progress + extra), CompletedLessonIds(progress);
    CompletedIdsAppend(progress, extra);
    forall t | t in topics ensures t.id !in CompletedLessonIds(extra) {
      forall k | 0 <= k < |extra| ensures extra[k].topicId != t.id {
        assert extra[k] in extra;
      }
      CompletedIdsMembership(extra, t.id);
    }
    GateDependsOnMembership(topics, a, b);
  }

  /** More progress never locks a topic or un-completes it. */
  lemma MoreProgressMonotone(topics: seq<Topic>, progress: seq<ProgressRecord>, extra: seq<ProgressRecord>)
    ensures var before, after := TopicStates(topics, progress), TopicStates(topics, progress + extra);
      forall i :: 0 <= i < |topics| ==>
        && (before[i].isCompleted ==> after[i].isCompleted)
        && (before[i].isUnlocked ==> after[i].isUnlocked)
  {
    CompletedIdsAppend(progress, extra);
  }

  /** Recording the predecessor's completion unlocks a topic. */
  lemma CompletingPredecessorUnlocks(topics: seq<Topic>, progress: seq<ProgressRecord>, i: nat)
    requires 0 < i < |topics|
    ensures TopicStates(topics, progress + [ProgressRecord(topics[i - 1].id)])[i].isUnlocked
  {
    CompletedIdsAppend(progress, [ProgressRecord(topics[i - 1].id)]);
  }

  /** Topics 1, 2, 3 with topic 1 done: 1 completed and unlocked, 2 unlocked, 3 locked. */
  lemma ThreeTopicExample(a: Topic, b: Topic, c: Topic)
    requires a.id == 1 && b.id == 2 && c.id == 3
    ensures var r := TopicStates([a, b, c], [ProgressRecord(1)]);
      && r[0].isCompleted && r[0].isUnlocked
      && !r[1].isCompleted && r[1].isUnlocked
      && !r[2].isCompleted && !r[2].isUnlocked
  {
  }

  /**
   * Progress need not follow the path: a topic whose predecessor has no record
   * is completed and still locked.
   */
  lemma CompletedTopicMayBeLocked(a: Topic, b: Topic)
    requires a.id == 1 && b.id == 2
    ensures var r := TopicStates([a, b], [ProgressRecord(2)]);
      r[1].isCompleted && !r[1].isUnlocked
  {
  }

  /** Number of entries of `positionClasses`, the layout slots along the path. */
  const PositionClassCount: nat := 6

  /** `index % positionClasses.length`: the layout slot of the node at `index`. */
  function PositionSlot(index: nat): (slot: nat)
    ensures slot < PositionClassCount
    ensures index < PositionClassCount ==> slot == index
  {
    index % PositionClassCount
  }

  /** The layout repeats every six nodes. */
  lemma PositionSlotPeriodic(index: nat)
    ensures PositionSlot(index + PositionClassCount) == PositionSlot(index)
  {
  }

  /**
   * The two facts above determine the slot: any function into `0..5` that is the
   * identity below 6 and repeats every 6 is `PositionSlot`.
   */
  lemma {:induction false} PositionSlotUnique(f: nat -> nat, index: nat)
    requires forall i: nat :: i < PositionClassCount ==> f(i) == i
    requires forall i: nat :: f(i + PositionClassCount) == f(i)
    ensures f(index) == PositionSlot(index)
    decreases index
  {
    if index >= PositionClassCount {
      var j: nat := index - PositionClassCount;
      assert f(j + PositionClassCount) == f(j);
      PositionSlotUnique(f, j);
    }
  }

  /** `/lesson/${lesson.id}`. */
  function LessonHref(id: TopicId): (href: string)
  {
    "/lesson/" + JsStrings.NumberToString(id)
  }

  /** A lesson link names its lesson: different ids give different links. */
  lemma LessonHrefIdentifiesLesson(a: TopicId, b: TopicId)
    requires LessonHref(a) == LessonHref(b)
    ensures a == b
  {
    var p := "/lesson/";
    assert LessonHref(a)[|p|..] == JsStrings.NumberToString(a);
    assert LessonHref(b)[|p|..] == JsStrings.NumberToString(b);
    JsStrings.NumberToStringInjective(a, b);
  }

  /** What a rendered node offers: its layout slot and, when navigable, the link target. */
  datatype NodeView = NodeView(slot: nat, link: Option<string>)

  /** `LessonNode`: a locked node is not clickable; an unlocked one links to its lesson. */
  function LessonNode(node: LessonState): (v: NodeView)
    ensures v.slot == PositionSlot(node.index) && v.slot < PositionClassCount
    ensures v.link.Some? <==> node.isUnlocked
    ensures v.link.Some? ==> v.link.value == LessonHref(node.lesson.id)
  {
    NodeView(PositionSlot(node.index), if !node.isUnlocked then None else Some(LessonHref(node.lesson.id)))
  }

  /** The nodes of the dashboard's path, one per topic. */
  function DashboardNodes(topics: seq<Topic>, progress: seq<ProgressRecord>): (r: seq<NodeView>)
    ensures |r| == |topics|
  {
    var states := TopicStates(topics, progress);
    seq(|topics|, i requires 0 <= i < |topics| => LessonNode(states[i]))
  }

  /**
   * End to end: node `i` sits in slot `i % 6` and links to `/lesson/<id of topic i>`
   * exactly when it is the first node or the previous topic has a progress record.
   */
  lemma DashboardNodeLinks(topics: seq<Topic>, progress: seq<ProgressRecord>, i: nat)
    requires i < |topics|
    ensures var v := DashboardNodes(topics, progress)[i];
      && v.slot == PositionSlot(i)
      && (v.link.Some? <==> i == 0 || HasCompleted(progress, topics[i - 1].id))
      && (v.link.Some? ==> v.link.value == LessonHref(topics[i].id))
  {
    TopicStatesMeaning(topics, progress);
  }
}
